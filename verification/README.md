# Spip sensor: delivery, QUIC reassembly, rate limits and wire codecs in Dafny

Spip is a network sensor. This project models the parts of it whose guarantees rest on several functions together, and
proves those guarantees for every input, every run and every interleaving.

**Delivery to Loom** (`Loom*.dfy`). The batcher encodes records, closes batches and puts them into an on-disk spool, or
into a bounded memory queue when the spool refuses them. One sender posts the oldest batch, and removes it, halves it or
keeps it by the answer.
- `LoomNames`, `LoomQueues`: spool file names, bodies, and queues of batches.
- `LoomSpool` (class), `LoomSpoolLaws`, `LoomSpoolOps`: the spool object and what its operations do to the queue.
- `LoomReopen`, `LoomRestart`, `LoomUndeleted`: opening a directory, the order after a restart, and after removals that
  could not delete their files.
- `LoomCrash`, `LoomAftermath`, `LoomCrashRuns`: a crash in the middle of a write or a split, the queue the next start finds
  for every point it may come at, and what runs from there may do.
- `LoomReports`: when a `Put` stores, and what the spool reports of the batches its caps take.
- `LoomMem` (class): the memory queue. `LoomBatcher`: the batching loop. `LoomDrain`: one pass of the sender over both
  objects. `LoomStatus`: that pass by the numbers of the status codes, and as a run of the shipper. `LoomBackoff`: how long the
  sender pauses.
- `LoomDelivery`, `LoomDeliveryLaws`, `LoomAccounts`: batcher and sender as interleaved atomic steps, with one kick slot
  and one retry timer, and what all runs keep. `LoomCollide` shows that the start condition of the identity results is exact.
  `LoomOrder` follows records from their encoding to their delivery.
- `LoomLink`, `LoomShipper`: the operations of the two objects are those steps, and a run of the shipper on them is a run of
  the protocol. `LoomPatience`: after a failure the sender waits.

**QUIC** (`Varint`, `Frames`, `Protection`, `Datagram`, `Packets`, `Reassembly`, `Assembler`, `AssemblerRuns`,
`HelloDelivery`). Variable-length integers, frames, packet protection and coalesced packets with their printers, and the
table that rebuilds a ClientHello from CRYPTO segments. `FrameGrammar`, `ProtectionLaws` and `DatagramGrammar` say what the
parsers make of every input, whoever printed it; `AssemblerHistory` says what an attempt is as a function of the packets that
came for it. The key derivation, the AEAD and the header-protection mask are
parameters: any functions of the right sizes for which opening undoes sealing.

**Transport parameters** (`TransportParams`, `TransportGrammar`, `TransportCanonical`, `Texts`). Parsing, and the description
that is hashed.

**Limits** (`SourceLimiter`, `SourceLimiterExact`, `SourceLimiterFair`, `Breaker`). The token bucket with its evicting table:
what it lets through at most, and what it must let through; and the breaker on conntrack lookups.

**Wire codecs** (`Netlink`, `Conntrack`, `ConntrackReplies`, `NetlinkGrammar`, `DnsFraming`). Netlink attributes and messages in either byte
order, and where a DNS message ends.

`Bytes`, `Decimals`, `Options` and `Subsequences` hold what the others share.

Code that changes fields in place is a class, or a method with the loop of the source, proved equal to a specification
function; the laws are lemmas about those functions. A clock, the free disk space, file operations, the answer to a post
and the order of a map iteration are parameters, so every law holds for every value of them.

Where code and description differ, the model follows the code:
- A cap may drop the batch whose post is out. It is then counted as dropped, and possibly as delivered too; `Conservation`
  says exactly how far the count can be off, and by which batches.
- A crash inside a split, between the naming of the first half and the deletion of the original, leaves a batch beside a half
  of it. Nothing is lost, and every document is found at least once and in order (`CrashReopens`). But when the batch is then
  split again, the half is listed twice for one file: its second listing is dropped and reported as corrupt after it was
  delivered (`DeliveredThenCorrupt`), or posted again after its 2xx when its file could not be deleted
  (`DeliveredThenPostedAgain`). Names stay unique exactly from the other starts (`UniqueExactlyWhenUnrelated`, `CrashStart`);
  the wake-up results need nothing of the start.
- When a split fails to write, `drain` removes the batch all the same; its documents are reported as removed.
- A split adds one byte to the spool's total, so the size cap may be exceeded until the next `Put`.
- Spool names sort in queue order only below 10^6 puts in a run; `SevenDigitsMisorder` gives two names that do not.
- DNS names with 255 bytes of labels are accepted, which with the root byte is one more than section 2.3.4 of RFC 1035 allows.
- `attr` writes a payload's length modulo 2^16; `VisitsExactlyWhatFits` gives the exact condition of the round trip.
- Version 2 and the unassigned version number 2 are both described as "2" (`SameName`).
- Transport parameters that share a number with different texts have no fixed description, since `sort.Slice` is not
  stable; `DeterminedExactly` gives the exact condition.
- The rate bound fails when an idle bucket can be evicted before it has refilled; `BoundedExactly` gives the exact condition
  for every size of table.

## Model

| member | source | states |
|---|---|---|
| LoomAccounts.NoLostWakeUp | internal/exporters/loom/shipper.go:195-322 | in every interleaving, from any start, whatever a queue holds is covered: a kick is in the slot, the retry timer is armed, a wake is owed by the batcher or by Run, or the sender is in drain with its check of that queue still ahead |
| LoomAccounts.WaitingIsWoken | internal/exporters/loom/shipper.go:281-322 | a sender that waits while something is queued is one or two enabled steps from looking at its queues |
| LoomDeliveryLaws.StepStaysAwake | internal/exporters/loom/shipper.go:264-322 | each atomic step of batcher and sender keeps the wake-up invariant |
| LoomPatience.WaitsOutFailure | internal/exporters/loom/shipper.go:290-322 | in every run, between a post that failed and the next look at either queue the retry timer fires, whatever is stored and however often the sender is woken meanwhile |
| LoomPatience.TimerStaysArmed | internal/exporters/loom/shipper.go:295-304 | while the timer is armed, no step of either process disarms it but its firing |
| LoomPatience.TimerArmed | internal/exporters/loom/shipper.go:305-320 | a failed post arms the timer and sends the sender back to wait; nothing else arms it |
| LoomPatience.ShipperWaits | internal/exporters/loom/shipper.go:290-322 | the same of the shipper on its two queues, over every run of it |
| LoomBackoff.Send | internal/exporters/loom/shipper.go:290-322 | each pause is the one that was asked for, or else the first length doubled once for every pause of the sender's own since a pass that was done, up to the longest |
| LoomBackoff.LengthBounds | internal/exporters/loom/shipper.go:316-319 | these pauses lie between the first and the longest |
| LoomAccounts.Conservation | internal/exporters/loom/shipper.go:206-387 | at any moment of any run, what was encoded or found at the start equals, as a multiset, what is in hand, queued, delivered, taken by a cap of the spool, taken by the cap of memory, or given up for an answer; the excess is at most the batches a cap dropped while their post was out, and zero without one |
| LoomAccounts.InFlightIdentity | internal/exporters/loom/shipper.go:348-387 | between Oldest and Remove or Split, under any puts and cap drops, the posted batch is first in its queue as it was read, or gone; identities in a queue are unique through nested splits, in all runs from a start where no batch can be halved into the name of another |
| LoomAccounts.NeverPostedAgain | internal/exporters/loom/shipper.go:362-366 | in runs from such a start, a batch answered with 2xx is never posted again nor found queued |
| LoomCollide.UniqueExactlyWhenUnrelated | internal/exporters/loom/spool.go:265-309 | the start condition is exact: from a queue sorted by name, all runs keep names unique if and only if no batch found can be halved, by the documents it has, into the name of another |
| LoomCollide.Collides | internal/exporters/loom/spool.go:290-304 | a batch that can be halved into a taken name leads to a state with that name queued twice, along any depth of halving |
| LoomAccounts.DeliveredInOrder | internal/exporters/loom/shipper.go:333-387 | what a queue delivers is, at any moment, a subsequence of what was put into it, halves and cap drops included |
| LoomOrder.DeliveredAsEncoded | internal/exporters/loom/shipper.go:195-387 | what is delivered from the spool is in the order of what it held at the start and then of the encoded records, and what is delivered from memory in the order of the encoded records, over every run |
| LoomOrder.RunOrdered | internal/exporters/loom/shipper.go:206-279 | the records of all closed batches and those in hand are the encoded ones, in order; each queue is given a subsequence of the closed ones |
| LoomAccounts.StepKeeps | internal/exporters/loom/shipper.go:264-387 | every step of either process keeps identities, account and order together |
| LoomAccounts.RunTallies | internal/exporters/loom/shipper.go:348-387 | over every run, what was removed is what the caps of either queue took and what was given up for an answer, no more and no less |
| LoomAccounts.RunStaysAwake | internal/exporters/loom/shipper.go:264-322 | the wake-up invariant holds after every prefix of every run, whatever the start |
| LoomAccounts.RunKeeps | internal/exporters/loom/shipper.go:195-387 | the invariants hold after every prefix of every run |
| LoomDeliveryLaws.StepKeepsIds | internal/exporters/loom/shipper.go:348-387 | every step keeps the identity invariant: queued names distinct, not yet delivered, and with no half of them named |
| LoomLink.PutIsStep | internal/exporters/loom/spool.go:130-146 | the spool's Put is an enabled step of the batcher: it is the storing step exactly when there is room, in sizes, and the write works, and the refusing one otherwise; queue, reports and names of the protocol stay those of the spool |
| LoomLink.OldestIsStep | internal/exporters/loom/spool.go:225-239 | the spool's Oldest is the sender's check: the batch it returns is the one posted, and it returns none exactly when the spool is empty; its losses are reported as too old or corrupt, and count exactly the documents lost |
| LoomLink.RemoveIsStep | internal/exporters/loom/spool.go:244-258 | Remove after an answer leaves the protocol's queue, also when the file could not be deleted |
| LoomLink.SplitIsStep | internal/exporters/loom/spool.go:265-309 | Split leaves the protocol's queue and goes on to check or to remove exactly as the protocol does, write errors included |
| LoomLink.MemPutIsStep | internal/exporters/loom/shipper.go:463-475 | the memory queue's Put is an enabled step of the batcher; its decimal names are new and unrelated to all halves; its reports count exactly the documents its cap takes |
| LoomLink.MemRemoveIsStep | internal/exporters/loom/shipper.go:487-498 | the memory queue's Remove leaves the protocol's queue |
| LoomLink.MemSplitIsStep | internal/exporters/loom/shipper.go:500-523 | the memory queue's Split leaves the protocol's queue; it never fails to write |
| LoomLink.OpenedStarts | internal/exporters/loom/spool.go:64-103 | a spool in order, as a restart finds it unless an earlier run stopped inside a split, and an empty memory queue are a state the protocol's runs start from |
| LoomLink.NewStemIsFresh | internal/exporters/loom/spool.go:137-138 | a stem given out later is neither equal to, nor a half of, nor halved into any earlier one |
| LoomShipper.EventIsStep | internal/exporters/loom/shipper.go:195-387 | whatever the shipper does on its spool and memory queue, including without a spool, is one enabled step of the protocol and leaves what the protocol says |
| LoomShipper.Shipping | internal/exporters/loom/shipper.go:195-387 | a run of the shipper on the two objects is, step for step, a run of the protocol, so what all runs of the protocol keep it keeps |
| LoomShipper.CountsAddUp | internal/exporters/loom/shipper.go:162-190 | over every run of the shipper, the records encoded or found are exactly those in hand, in the spool, in memory, shipped, in the spool's reports, in memory's reports, or given up for an answer, but for batches a cap dropped while their post was out |
| LoomReports.PutGivesUp | internal/exporters/loom/spool.go:130-219 | a Put reports each batch it drops once, with the reason of the cap that took it, in the order of the caps, and the counts reported are the documents that left the queue |
| LoomReports.OldestReports | internal/exporters/loom/spool.go:203-239 | the counts Oldest reports are the documents that left the queue |
| LoomReports.PutResult | internal/exporters/loom/spool.go:130-199 | the exact result of a Put, in sizes: after expiry, Stored if and only if the write works and the free space is unknown or, with all that is queued, covers body and reserve; LowDisk exactly when it does not, with nothing left queued; WriteError otherwise; the put counter moves exactly when there was room |
| LoomBatcher.Collect | internal/exporters/loom/shipper.go:206-249 | for any records, encoding failures and ticks: the stored batches concatenate to the encoded records in order; each has 1 to batchSize records and is within the body bound unless it is one record; each was closed because it was full, because the next record would not fit, or by a tick; none reaches across a tick |
| LoomBatcher.BodyBound | internal/exporters/loom/shipper.go:237-244 | a stored body has at most maxBody + 1 bytes, or one record |
| LoomBatcher.BatchSize | internal/exporters/loom/shipper.go:196-200 | the batch size is at least 1 and at most 500 whatever is configured |
| LoomBatcher.RecordKeeps | internal/exporters/loom/shipper.go:232-244 | one record keeps the batching invariant, over all of its three outcomes |
| LoomBatcher.TickKeeps | internal/exporters/loom/shipper.go:245-246 | a tick closes the open batch and nothing else |
| LoomDrain.Drain | internal/exporters/loom/shipper.go:348-387 | for any answers, over the spool object and the memory object: it ends within the sum of 2n - 1 posts; it ends well if and only if every status was 200 to 299, 400, 413 or 415, and then nothing is queued; otherwise it waits as long as a last 429 asks and 0 after any other; every document is in the log or queued, in order, each with a fate its round justifies; the count shipped is that of the documents answered with 200 to 299 |
| LoomDrain.EveryDocumentSettled | internal/exporters/loom/shipper.go:348-387 | a pass that ends well, without an age cap and with every file readable, has delivered, rejected or refused every document there was, in order |
| LoomDrain.PassKeeps | internal/exporters/loom/shipper.go:348-387 | over any pass the queues stay right, each document is logged or queued, in order, and each settled round costs one of the posts its batches may cost |
| LoomDrain.PassJustified | internal/exporters/loom/shipper.go:361-386 | every fate in the log of a pass is the one the answer, or the state of the spool, of its round calls for |
| LoomDrain.OfferKeeps | internal/exporters/loom/shipper.go:333-343 | the batch to post is the first of the spool, or the first of memory while the spool is empty; what the spool gave up before is a prefix of it, each batch too old or unreadable, and never of memory |
| LoomDrain.PostKeeps | internal/exporters/loom/shipper.go:361-386 | what drain does with an answer keeps the queues right, and the documents where they were or in the fate the answer calls for |
| LoomDrain.TakeOffKeeps | internal/exporters/loom/shipper.go:362-381 | exactly the posted batch leaves its queue |
| LoomDrain.SplitKeepsReady | internal/exporters/loom/shipper.go:367-375 | the posted batch is replaced by its halves exactly when it has two documents and, on disk, both halves can be written |
| LoomDrain.Next | internal/exporters/loom/shipper.go:333-343 | asks the spool and then memory, as the specification of a round does |
| LoomDrain.Act | internal/exporters/loom/shipper.go:361-386 | by the number of the status: 200 to 299, 400 and 415 take the batch off, 413 halves it or takes it off, any other number and no answer change nothing and end the pass, and only 429 asks for a pause |
| LoomStatus.RoundByStatus | internal/exporters/loom/shipper.go:348-386 | a whole round by the number of the status: 200 to 299, exactly the first batch leaves and its documents are delivered; 400 and 415, exactly it leaves as rejected; 413, it is halved in place if it can be and leaves as refused if not; 429, any other number and no answer, the queues stay as the offer left them; drain goes on after the first four only |
| LoomStatus.RoundIsEvents | internal/exporters/loom/shipper.go:333-387 | a round of drain is a run of the shipper from one look at the spool to the next, or to its rest with the timer armed if the post failed |
| LoomStatus.PassIsShipping | internal/exporters/loom/shipper.go:333-387 | a whole pass of drain on the two queues is a run of the shipper, with the same queues after every round and the same count shipped, so what all runs of the protocol keep holds of it |
| LoomDrain.HalveFirst | internal/exporters/loom/shipper.go:367-375 | a split keeps the documents in order and lowers the bound on posts by one |
| LoomQueues.PostsAreTwoPerDocument | internal/exporters/loom/shipper.go:348-387 | the bound on posts is two per document less one per batch |
| LoomQueues.JoinDocs | internal/exporters/loom/spool.go:312-326 | the loop builds the JSON array of the documents, unchanged and in order |
| LoomQueues.BodySize | internal/exporters/loom/spool.go:312-326 | a body's size is the batcher's running size plus one |
| LoomQueues.BodyLayout | internal/exporters/loom/spool.go:312-326 | every document stands in the body unchanged at the offset the sizes before it give, with a comma between any two and brackets around |
| LoomQueues.HalvesAddOneByte | internal/exporters/loom/spool.go:288-300 | two halves hold the documents of the whole in order, are not empty, differ by at most one document, and are together one byte longer |
| LoomQueues.HalvedKeepsDocs | internal/exporters/loom/spool.go:265-309 | replacing a batch by its halves in place keeps the flattened document sequence |
| LoomSpool.Spool.Put | internal/exporters/loom/spool.go:130-146 | the whole new state: expiry, room, the name, the write, the size cap, and which of the three results |
| LoomSpool.Spool.Oldest | internal/exporters/loom/spool.go:225-239 | expires, drops unreadable files from the front, and returns the first good batch as stored |
| LoomSpool.Spool.Remove | internal/exporters/loom/spool.go:244-258 | the entry leaves the index by name; the file only if it could be deleted |
| LoomSpool.Spool.SplitBatch | internal/exporters/loom/spool.go:265-309 | writes both halves before the original goes; a failed write leaves the index, and takes the first half back |
| LoomSpool.Spool.MakeRoom | internal/exporters/loom/spool.go:176-191 | drops the oldest until the body and the reserve fit, and says whether they do |
| LoomSpool.Spool.Enforce | internal/exporters/loom/spool.go:195-199 | drops the oldest while over the cap, never the last one |
| LoomSpool.Spool.Expire | internal/exporters/loom/spool.go:203-211 | drops from the front what is older than the age cap |
| LoomSpool.Spool.DropOldest | internal/exporters/loom/spool.go:213-219 | index, file, total and report of one drop |
| LoomSpool.Spool.Stats | internal/exporters/loom/spool.go:329-336 | count, bytes and documents of the index |
| LoomSpoolLaws.PutKeeps | internal/exporters/loom/spool.go:130-146 | after a Put that stores, the new batch is last, the total is the sum of the sizes and within the cap unless the batch is alone; otherwise the queue lost a prefix only; index, files and name order stay right in every case |
| LoomSpoolLaws.ExpireShortest | internal/exporters/loom/spool.go:203-211 | expiry drops the longest prefix of expired batches and stops at the first that is not |
| LoomSpoolLaws.RoomShortest | internal/exporters/loom/spool.go:176-191 | making room drops the shortest prefix that frees enough, or all |
| LoomSpoolLaws.EnforceShortest | internal/exporters/loom/spool.go:195-199 | the size cap drops the shortest prefix that brings the total under it, keeping the last batch |
| LoomSpoolOps.OldestKeeps | internal/exporters/loom/spool.go:225-239 | Oldest loses a prefix, too old and then unreadable, with a report for each, and returns what is then first, with its documents and count |
| LoomSpoolOps.OldestGivesUp | internal/exporters/loom/spool.go:203-239 | the batches given up are the longest run of too old ones and then the longest run of unreadable ones, each reported with that reason |
| LoomSpoolLaws.SkipsUnreadable | internal/exporters/loom/spool.go:229-236 | exactly the unreadable batches at the front are skipped |
| LoomSpoolOps.RemoveKeeps | internal/exporters/loom/spool.go:244-258 | Remove takes exactly the named batch out, wherever it is, or nothing when a cap took it |
| LoomSpoolOps.RemoveFiles | internal/exporters/loom/spool.go:244-258 | Remove fails exactly when the batch is there and its file cannot be deleted; no other file is touched |
| LoomSpoolOps.SplitKeeps | internal/exporters/loom/spool.go:265-309 | Split replaces the batch by its halves in place for one byte more, keeping documents, age order and name order; a single document, a missing batch or a write error leaves the queue as it was |
| LoomSpoolOps.SplitEntries | internal/exporters/loom/spool.go:265-309 | a split fails exactly when there is something to halve and a write fails; the halves stand in the place of the batch and keep its age |
| LoomNames.NameReadsBack | internal/exporters/loom/spool.go:108-126 | parseName inverts the naming of batches and halves: time and count come back |
| LoomNames.ParsesExactly | internal/exporters/loom/spool.go:108-126 | a file is taken for the spool's exactly when its name is a 63-bit numeral, any middle, and a 63-bit numeral, joined by the only two dashes, before .json; time and count are those numerals |
| LoomNames.LaterStemDiverges | internal/exporters/loom/spool.go:138-138 | a name given later sorts behind every earlier one and all halves of it |
| LoomNames.HalvesDiverge | internal/exporters/loom/spool.go:290-292 | the first half sorts before the second |
| LoomNames.NamesSortLikeStems | internal/exporters/loom/spool.go:94-94 | names sort as their stems do, whatever their counts |
| LoomNames.SevenDigitsMisorder | internal/exporters/loom/spool.go:138-138 | put number 1000000 of one instant sorts before number 999999: the bound of 10^6 puts is needed |
| LoomReopen.OpenSpool | internal/exporters/loom/spool.go:64-103 | the index lists exactly the spool files of the directory, sorted by name, with their sum; temporary files are removed and foreign files left |
| LoomReopen.ReadDirectory | internal/exporters/loom/spool.go:70-93 | one entry for each spool file, in whatever order the directory is read |
| LoomReopen.SortedUnique | internal/exporters/loom/spool.go:94-94 | there is one sorted order of distinct names, so any sort gives it |
| LoomRestart.ReopenAnyTime | internal/exporters/loom/spool.go:64-103 | after any sequence of Put, Oldest, Remove, nested Split and restarts, with a clock that does not go back, fewer than 10^6 puts a run, and deletions that work, opening the directory gives the queue as it stands in memory, in its order |
| LoomRestart.RestartKeeps | internal/exporters/loom/spool.go:64-103 | a restart at a later clock reading finds the same batches in the same order and starts a run that is itself in order |
| LoomRestart.StepKeeps | internal/exporters/loom/spool.go:130-309 | every operation keeps index, directory and name order in step |
| LoomUndeleted.ReopenWithUndeleted | internal/exporters/loom/spool.go:244-258 | with removals that may fail to delete, at any point of any such run, opening the directory gives, sorted by name, the queue as it stands and exactly the batches that could not be deleted |
| LoomUndeleted.StepShadows | internal/exporters/loom/spool.go:130-309 | every operation, failed deletions included, keeps the directory in name order behind the index |
| LoomCrash.WriteCutOff | internal/exporters/loom/spool.go:151-171 | cut off between any two file operations, a write leaves the directory a restart reads as it was, or with the whole new file |
| LoomCrash.WriteDone | internal/exporters/loom/spool.go:151-171 | a whole write amounts to setting the file |
| LoomCrash.SplitCutOff | internal/exporters/loom/spool.go:265-309 | cut off anywhere, a split leaves every other file as it was and the original or both halves whole |
| LoomCrash.SplitDone | internal/exporters/loom/spool.go:265-309 | the file operations of a split, all done, leave the directory its specification says |
| LoomCrash.SplitCrashLosesNothing | internal/exporters/loom/spool.go:265-309 | in any state a run reaches, a crash anywhere in a split leaves every document of the batch in some file OpenSpool reads |
| LoomAftermath.SplitCutExactly | internal/exporters/loom/spool.go:265-309 | exactly what the directory holds after any number of the file operations of a split |
| LoomAftermath.CrashReopens | internal/exporters/loom/spool.go:64-103 | after a crash at any point of a split the start finds the queue as it was, with the batch, the batch and the halves written, or its halves in its place: every document at least once, in order, and the ages in order |
| LoomCrashRuns.CrashStart | internal/exporters/loom/spool.go:265-309 | the runs after such a start keep names unique if and only if the crash came before the first half was named or after the original was deleted |
| LoomCrashRuns.SortedHalvesBehind | internal/exporters/loom/spool.go:94-94 | in a queue sorted by name no batch stands before one it is a half of |
| LoomCrashRuns.SplitListsTwice | internal/exporters/loom/spool.go:290-304 | with a half of it in the index, splitting a batch lists one name twice |
| LoomCrashRuns.SplitAfterCrash | internal/exporters/loom/spool.go:265-309 | the index and the files after a batch whose half was left by a crash is split again |
| LoomCrashRuns.DeliveredThenCorrupt | internal/exporters/loom/spool.go:225-258 | the second listing of a delivered half is dropped and reported as corrupt |
| LoomCrashRuns.DeliveredThenPostedAgain | internal/exporters/loom/spool.go:225-258 | when its file could not be deleted, a delivered half is read, and posted, again |
| LoomMem.MemQueue.Put | internal/exporters/loom/shipper.go:463-475 | the whole new state: number, name, item, total, and the drops over the cap |
| LoomMem.MemQueue.First | internal/exporters/loom/shipper.go:477-485 | the first item, or that there is none |
| LoomMem.MemQueue.Remove | internal/exporters/loom/shipper.go:487-498 | the first item of that name leaves, with its bytes |
| LoomMem.MemQueue.SplitBatch | internal/exporters/loom/shipper.go:500-523 | the halves take the item's place; true without change when it is gone; false for fewer than two documents |
| LoomMem.PutRefines | internal/exporters/loom/shipper.go:463-475 | the new batch is last, what is dropped is a prefix, and the total is within the cap or the batch is alone |
| LoomMem.CappedShortest | internal/exporters/loom/shipper.go:469-474 | the prefix dropped is the shortest that brings the bytes under the cap |
| LoomMem.RemoveRefines | internal/exporters/loom/shipper.go:487-498 | Remove takes exactly the named batch off the queue and keeps the total the sum of the bodies |
| LoomMem.SplitRefines | internal/exporters/loom/shipper.go:500-523 | Split halves the batch in place for one byte more |
| HelloDelivery.HelloReportedOnce | internal/quic/assemble.go:63-150 | end to end: for any ClientHello within the bound, cut into pieces that fit an attempt and printed as CRYPTO frames, in any packets, order, repeats and company, with other keys and sweeps between, exactly the delivery that fills the last gap reports exactly that hello; no other reports the key |
| HelloDelivery.ChunksCut | internal/quic/quictest/quictest.go:58-63 | at most 64 nonempty consecutive chunks of a hello are such pieces |
| HelloDelivery.HelloWhenComplete | internal/quic/assemble.go:117-128 | before the last gap is filled there is no hello, and then it is exactly the one sent |
| Reassembly.JoinSegments | internal/quic/assemble.go:132-150 | contiguous returns the bytes up to the first position no stored segment covers, byte p from the lowest-offset segment covering p |
| Reassembly.ContiguousUnique | internal/quic/assemble.go:132-150 | only one byte string fits that definition, so arrival order cannot matter |
| Reassembly.JoinIsPrefix | internal/quic/assemble.go:132-150 | slices of one stream join to a prefix of it, and to all of it exactly when no position is missing |
| Reassembly.JoinByCoverage | internal/quic/assemble.go:132-150 | stores of slices of one stream with the same coverage join to the same bytes |
| Reassembly.SortedOffsets | internal/quic/assemble.go:133-137 | the offsets, ascending, each once |
| Assembler.Table.Add | internal/quic/assemble.go:63-114 | the whole new table and the attempt returned, by the function whose laws the rows of AssemblerHistory, AssemblerRuns and HelloDelivery state |
| Assembler.Table.Expire | internal/quic/assemble.go:155-174 | exactly the attempts over their time are returned and completed; exactly the old completions are forgotten |
| AssemblerHistory.StoredExactly | internal/quic/assemble.go:96-105 | an offset is stored exactly when some segment at it found room under the caps, and holds the bytes of the first that did |
| AssemblerHistory.SegmentsPersist | internal/quic/assemble.go:96-105 | no segment that is stored is replaced or lost by later ones |
| AssemblerHistory.RunPersists | internal/quic/assemble.go:63-174 | the same between any two moments of a run while the key stays pending |
| AssemblerHistory.AttemptIsItsPackets | internal/quic/assemble.go:63-174 | over every run, a pending attempt is what the packets since it began make it: time, version, connection ids, token length and up to 1500 raw bytes of the first; datagrams, bytes and pings of all; the first close reason; the segments that all of them leave stored |
| AssemblerHistory.ArrivalReports | internal/quic/assemble.go:63-128 | a complete attempt that is reported is its packets, the last included, with the hello their stream begins with |
| AssemblerHistory.SweepReports | internal/quic/assemble.go:155-174 | an attempt that is given up began at least three seconds before, and is its packets, whose stream begins with no hello |
| AssemblerHistory.HelloExactly | internal/quic/assemble.go:117-128 | a hello is found if and only if the stream begins with a message of type 1 and its announced length within 8192 bytes, and it is that message |
| AssemblerHistory.NothingVanishes | internal/quic/assemble.go:63-114 | a packet that is neither repeated nor refused leaves its attempt pending or reported, never both |
| AssemblerHistory.SweepExactly | internal/quic/assemble.go:155-174 | what a sweep leaves: attempts younger than three seconds as they are, the keys it gives up, and keys completed less than thirty seconds ago |
| AssemblerHistory.SweptIsReported | internal/quic/assemble.go:155-174 | every attempt a sweep takes away it reports |
| AssemblerHistory.CountersExact | internal/quic/assemble.go:63-78 | over every run the two counters are the datagrams of completed keys, and the packets refused with 1024 attempts or 8192 keys held |
| Assembler.StoreSegments | internal/quic/assemble.go:96-106 | the loop over a packet's segments computes the function of which StoredExactly says what is stored |
| AssemblerRuns.RunKeeps | internal/quic/assemble.go:63-174 | after any run: pending and completed are disjoint, pending at most 1024, both at most 8192; each pending attempt has at most 64 segments, summing to its stored count, within the byte cap, and no complete hello |
| AssemblerRuns.BoundedFromEmpty | internal/quic/assemble.go:56-174 | so from the table NewAssembler makes |
| AssemblerRuns.ReportsSeparated | internal/quic/assemble.go:63-174 | between two reports of one key there is a sweep at least CompletedTTL after the first |
| AssemblerRuns.AddedKeeps | internal/quic/assemble.go:63-114 | Add keeps the invariant, and what it reports was not completed before and is after |
| AssemblerRuns.OthersUntouched | internal/quic/assemble.go:63-114 | a packet of one key leaves every other key as it was |
| AssemblerRuns.StepRemembers | internal/quic/assemble.go:155-174 | only a sweep late enough forgets a completed key |
| Frames.ParseFrames | internal/quic/frames.go:32-75 | the re-slicing loop computes the specification, error position included |
| FrameGrammar.ParsesExactly | internal/quic/frames.go:32-133 | over every payload, whatever the width of its integers: the result is the summary of the one list of allowed frames that leads it up to where no frame begins, and it is an error exactly when something is left there |
| FrameGrammar.FramesExactly | internal/quic/frames.go:32-133 | frames with nothing behind them, or with another type, a frame cut short or an ACK of more than 256 ranges behind them, are exactly what is collected |
| FrameGrammar.SummaryExactly | internal/quic/frames.go:32-75 | the summary of a list of frames: the CRYPTO segments in order, the number of PING frames, whether there is a CONNECTION_CLOSE, and the reason of the last one |
| FrameGrammar.FramesOf | internal/quic/frames.go:32-133 | every payload is such a list and such a rest |
| FrameGrammar.DecodeExactly | internal/quic/initial.go:276-289 | an integer is read exactly when the bytes are it: 1, 2, 4 or 8 of them, big-endian, under a two-bit tag |
| Frames.FramesRoundTrip | internal/quic/frames.go:32-75 | parsing inverts printing on every list of PADDING, PING, ACK, CRYPTO and CONNECTION_CLOSE frames |
| Frames.FramesThen | internal/quic/frames.go:32-75 | printed frames are read one by one whatever bytes follow, and parsing goes on behind them |
| Frames.FrameStep | internal/quic/frames.go:32-75 | one printed frame is consumed exactly and adds exactly itself |
| Frames.VarintReader.Next | internal/quic/frames.go:82-86 | the next integer, or an error that leaves the cursor |
| Frames.SkipAck | internal/quic/frames.go:88-112 | the length of an ACK frame with its ranges and ECN counts, or that it is cut short or too large |
| Frames.ReadClose | internal/quic/frames.go:114-133 | the reason of a CONNECTION_CLOSE and where it ends |
| Varint.ReadVarint | internal/quic/initial.go:276-289 | the byte loop reads a number of the announced width |
| Varint.RoundTrip | internal/quic/quictest/quictest.go:45-55 | reading a printed number, whatever follows, gives it back and stops at its end; exactly below 2^62 |
| Protection.ProtectionRoundTrip | internal/quic/initial.go:236-273 | for any mask function and a packet number of 1 to 4 bytes, unprotecting what was protected gives the number and the payload back |
| Protection.SoundSuiteExists | internal/quic/initial.go:82-116 | there is a cryptography that meets the laws asked of it, so the round trips are not empty |
| Protection.MaskedTwice | internal/quic/initial.go:247-253 | the header mask is its own inverse, also through the packet-number length it hides |
| Protection.Unprotect | internal/quic/initial.go:236-273 | unmasking in place, reading the number and opening compute the function of which UnprotectsExactly is the law |
| Protection.MakeNonce | internal/quic/initial.go:263-266 | the nonce loop computes the function of which NonceIs is the law |
| ProtectionLaws.UnprotectsExactly | internal/quic/initial.go:236-273 | a packet opens to a payload and a number if and only if, with the mask of the sixteen bytes that start four behind the number's place taken off the four low bits of the first byte and off the number, the number is that one and the AEAD opens the rest under the IV combined with it, all before it as associated data |
| ProtectionLaws.NonceIs | internal/quic/initial.go:263-266 | the nonce is the one string that differs from the IV by the packet number, big-endian and right-aligned (section 5.3 of RFC 9001) |
| ProtectionLaws.NoncesDiffer | internal/quic/initial.go:263-266 | different packet numbers give different nonces |
| Protection.AddMask | internal/quic/quictest/quictest.go:99-105 | masking in place gives the masked packet |
| Datagram.DatagramRoundTrip | internal/quic/initial.go:133-153 | coalesced packets, sealed Initials and skipped ones, come back one for one; padding or a short header behind changes nothing |
| Datagram.WalkStep | internal/quic/initial.go:133-221 | one packet is taken off the front, whole, and the walk goes on behind it |
| Datagram.ParseDatagram | internal/quic/initial.go:133-153 | the loop computes the walk, whose input shrinks strictly |
| Datagram.ParseLongPacket | internal/quic/initial.go:155-221 | reading at a moving offset computes the parse, every error included |
| DatagramGrammar.LongExactly | internal/quic/initial.go:155-221 | on every input: no packet without a header, or with connection ids over 20 bytes in a known version; a packet of an unknown version comes back with its header, as unsupported; another type comes back with its header and its size if that can be known; an Initial is read if and only if token, length and payload are there and it opens, and otherwise comes back malformed, with its header and the length of its token if that is there |
| DatagramGrammar.InitialExactly | internal/quic/initial.go:187-220 | exactly when an Initial is read, and to what |
| DatagramGrammar.SkipExactly | internal/quic/initial.go:225-234 | what is skipped is a length and that many bytes; of a Retry, or if they are not there, nothing |
| DatagramGrammar.WalkStops | internal/quic/initial.go:133-153 | behind packets that were sent, what is no long-header packet ends the walk without an error; an unknown version and an Initial that cannot be read come back last with their error; a packet whose end is unknown comes back last |
| Datagram.Seal | internal/quic/quictest/quictest.go:66-107 | Seal prints a padded Initial with a four-byte number and a two-byte length |
| TransportParams.ParseParams | internal/quic/hello.go:178-201 | the loop computes the parse, with what was read before an error |
| TransportGrammar.ParamsExactly | internal/quic/hello.go:178-201 | over every input: the result is the parameters that lead it, at most 128, with no error if and only if they are all of it, and else the reason they end: 128 taken, no two integers, or a value longer than what is left |
| TransportParams.ParseRoundTrip | internal/quic/hello.go:178-201 | printed parameters are parsed back, all up to 128, and the first 128 with an error beyond |
| TransportParams.GreaseIsReserved | internal/quic/hello.go:203-203 | a number is treated as reserved exactly when it is 31 * N + 27 |
| TransportParams.DescribeVersions | internal/quic/hello.go:249-278 | the loop renders the chosen version, the others and one marker |
| TransportParams.TextOf | internal/quic/hello.go:220-232 | the text of a parameter by its kind |
| TransportGrammar.KeptExactly | internal/quic/hello.go:220-232 | what is kept of a parameter, by number: an integer for 1, 3 to 11, 14, 32 and 0xff04de1b, if the value is exactly one; versions for 0x11 and 0xff73db; a length for 0x0f; else its presence |
| TransportGrammar.VersionsExactly | internal/quic/hello.go:249-278 | what is kept of version_information: the chosen version, exactly the others whose bytes are not all 0x?a, in order, and whether any version was so; of a wrong length that length |
| TransportGrammar.ListLayout | internal/quic/hello.go:235-243 | the separators and the place of the marker |
| TransportParams.DescribeParams | internal/quic/hello.go:208-244 | the result renders some order by id of the kept parameters and one marker |
| TransportCanonical.SameDescription | internal/quic/hello.go:205-244 | two lists are described alike only if they have the same kept shapes, as often, and agree on having reserved ones; and if they do, they are described alike whenever parameters sharing a number have one text |
| TransportCanonical.DeterminedExactly | internal/quic/hello.go:235-235 | a list has one possible description exactly when parameters sharing a number have one text |
| TransportCanonical.PermutedAgree | internal/quic/hello.go:235-235 | the order of the parameters does not matter |
| TransportCanonical.ReservedAgree | internal/quic/hello.go:216-219 | which reserved parameters there are, where and how many does not matter |
| TransportCanonical.TextInjective | internal/quic/hello.go:220-232 | a parameter's text determines its number and all that is kept of its value |
| TransportCanonical.SameVersions | internal/quic/hello.go:246-278 | two values are described alike exactly when they have the same wrong length, or the same chosen version, the same others apart from reserved ones, and agree on having a reserved one |
| TransportCanonical.ReservedIsSkipped | internal/quic/hello.go:266-273 | a reserved version inserted anywhere behind the first leaves the others as they were |
| TransportCanonical.SameName | internal/quic/hello.go:254-262 | two versions get one name only when equal, or when they are version 2 and the number 2 |
| SourceLimiter.RateBoundHolds | internal/udp/limit.go:42-72 | for any key and any window of any run, admissions are at most burst + rate * elapsed, when rate * idle >= burst, and the table is within its maximum |
| SourceLimiterFair.ConformingIsAdmitted | internal/udp/limit.go:42-72 | the other side: over every run, whatever other sources send, a datagram of a source whose arrivals keep to burst + rate * elapsed is admitted, unless the table is full of others none of which is idle |
| SourceLimiterFair.WorthLater | internal/udp/limit.go:54-54 | waiting adds rate times the wait, up to a burst |
| SourceLimiterExact.BoundedExactly | internal/udp/limit.go:42-72 | the bound holds over all runs exactly when burst or table is empty, when a table of one entry has rate * 2 * idle >= burst, or a larger one rate * idle >= burst |
| SourceLimiterExact.OneEntryIsBounded | internal/udp/limit.go:42-72 | with one entry an evicted bucket must wait for its successor to be idle too, so twice the idle time is enough |
| SourceLimiter.AllowedIsIdeal | internal/udp/limit.go:42-61 | the evicting table decides as one that forgets nothing, for every key it has or makes room for |
| SourceLimiter.EvictionIsFree | internal/udp/limit.go:63-72 | evicting an idle bucket and making it again gives the same tokens as keeping it |
| SourceLimiter.AllowedKeeps | internal/udp/limit.go:42-72 | the table never exceeds its maximum, whatever the rate |
| SourceLimiter.RunKeeps | internal/udp/limit.go:42-72 | the table stays bounded and its tokens between 0 and burst over every run |
| SourceLimiter.SharedBucket | internal/udp/limit.go:33-40 | two addresses share a bucket exactly when they are one IPv4 address, mapped or not, or lie in one IPv6 /64 |
| SourceLimiter.Limiter.Allow | internal/udp/limit.go:42-61 | the new table and the answer |
| SourceLimiter.Limiter.Evict | internal/udp/limit.go:63-72 | exactly the idle buckets go, and the answer says whether there is room |
| Breaker.LookupsBounded | internal/udp/server.go:198-227 | if every lookup in a window fails, at most 3 * (floor(T / 30 s) + 1) are made, whatever the arrival times and the streak before |
| Breaker.BoundIsReached | internal/udp/server.go:198-227 | for every length of window some run makes exactly that many |
| Breaker.PausesExactly | internal/udp/server.go:209-227 | over every run from a new breaker, with any answers: it is paused until thirty seconds after the last lookup that was a third failure in a row, and a lookup that does not fail begins the count again |
| Breaker.CtBreaker.Record | internal/udp/server.go:215-227 | streak and pause after an answer |
| Breaker.CtBreaker.Resolve | internal/udp/server.go:180-186 | a lookup is made exactly when no pause is on, and its outcome is recorded |
| Netlink.VisitsExactlyWhatFits | pkg/conntrack/message.go:48-102 | walking attributes that were built visits exactly their types and payloads in order, if and only if every length fits 16 bits |
| Netlink.WalksWhatWasBuilt | pkg/conntrack/message.go:86-102 | for any callback, the walk folds it over what was built, stops at its first error, and goes on with what follows |
| Netlink.TreeWalks | pkg/conntrack/message.go:48-102 | the round trip holds at every nesting level |
| Netlink.WalkAttrs | pkg/conntrack/message.go:86-102 | the loop computes the walk for any callback |
| NetlinkGrammar.AttrsExactly | pkg/conntrack/message.go:86-102 | on every input and for every callback: fewer than four bytes end the walk; an attribute, its numbers in the byte order of the machine, is handed on and the walk ends with its error or goes on at the next multiple of four; anything else is malformed |
| Netlink.BuildAttr | pkg/conntrack/message.go:48-57 | the padding loop builds length, type, payload and zeros up to a multiple of four |
| ConntrackReplies.EntryIsFound | pkg/conntrack/message.go:106-186 | past any messages of other requests, acknowledgements and unknown types, the matching entry, whatever else it carries and whatever follows, gives the last address and port of its original tuple, or that one is missing |
| ConntrackReplies.ErrorIsRead | pkg/conntrack/message.go:124-135 | an error for the request, any 32-bit number but 0, ends the walk with its negation, not found for ENOENT |
| ConntrackReplies.ShortIsRead | pkg/conntrack/message.go:124-141 | a cut-short error or entry, or the end of a dump, ends the walk with its own error |
| ConntrackReplies.ReadReply | pkg/conntrack/message.go:106-147 | the loop computes the parse, every error included |
| NetlinkGrammar.ReplyExactly | pkg/conntrack/message.go:106-147 | on every input: fewer than sixteen bytes leave the request pending; a message of another number, an acknowledgement and an unknown type are passed over; an error, the end of a dump and an entry end the walk with what they say; anything else is malformed |
| ConntrackReplies.RequestWalks | pkg/conntrack/message.go:63-83 | the header of a request says what it is and walking it recovers the reply tuple; none exactly for addresses of different families |
| NetlinkGrammar.RequestedTuple | pkg/conntrack/message.go:63-83 | the tuple of a request, under the numbers of ctnetlink: from the local address and port to the remote ones, ports big-endian, with the family of the address |
| NetlinkGrammar.DestinationPaths | pkg/conntrack/message.go:149-186 | the numbers under which the original destination is looked for |
| ConntrackReplies.SkipsOthers | pkg/conntrack/message.go:106-147 | messages that do not settle the request are passed over |
| Conntrack.OrigDstAnswers | pkg/conntrack/message.go:149-186 | origDst on any tree of attributes gives the last destination address and port at their paths, or that one is missing |
| Conntrack.OrigDstReads | pkg/conntrack/message.go:149-186 | the nested callbacks read exactly the leaves at those paths, in order |
| DnsFraming.FramedExactly | internal/dnsinfo/dnsinfo.go:192-218 | framedLen gives r exactly when the first r bytes are a message of the grammar, within the code's limits |
| DnsFraming.SameWithAnythingBehind | internal/dnsinfo/dnsinfo.go:192-218 | the result depends on no byte behind the message |
| DnsFraming.NoPrefixFrames | internal/dnsinfo/dnsinfo.go:192-218 | cut anywhere before its end, a message frames as nothing: framed messages are prefix-free |
| DnsFraming.FramedLen | internal/dnsinfo/dnsinfo.go:192-218 | the loops compute the specification |
| DnsFraming.SkipName | internal/dnsinfo/dnsinfo.go:236-262 | the loop skips a name, bounded, with a pointer only to earlier bytes behind the header |
| DnsFraming.NameSkipped | internal/dnsinfo/dnsinfo.go:236-262 | every name of the grammar is skipped exactly |
| DnsFraming.SkippedName | internal/dnsinfo/dnsinfo.go:236-262 | whatever is skipped is a name of the grammar |
| DnsFraming.Padding | internal/dnsinfo/dnsinfo.go:222-232 | at most four bytes, each zero, CR or LF |

## Left out

- JSON: a record is an opaque string and a body is represented by the documents it joins; a body that is valid JSON but no array does not occur.
- Shutdown, its last drain under a deadline, and the stop channel: the protocol covers runs up to then.
- LoomSpool.Spool.DropOldest: the deletion of the dropped file is taken to work; Remove models the failure.
- LoomSpool.Spool.SplitBatch: the deletion of the original, or of a half taken back, is taken to work; a crash before it is modelled.
- LoomRestart.StepKeeps: deletions work in these runs; LoomUndeleted has the runs with removals that fail to delete.
- LoomRestart.ReopenAnyTime: a crash is no operation of these runs; LoomAftermath has the start after one.
- LoomRestart.RestartKeeps: starts on a spool in order; LoomAftermath has the start on what a crash inside a split leaves.
- A failing directory or temporary-file operation inside write beyond its being reported, and file modes.
- LoomReopen.OpenSpool: sub-directories, files whose size cannot be read and the probe write are not modelled.
- Retry-After parsing, hourly logging and the wording of log lines.
- Packets.Packet: close reasons are kept raw; their sanitising is not modelled.
- Assembler.Table.Add: the caller's opaque `meta` value is not modelled.
- AES, GCM, HKDF and the hashing of descriptions: parameters with the sizes and the inverse law they have.
- SourceLimiter.Limiter.Allow: tokens and seconds are real numbers; floating-point rounding is not modelled.
- Breaker.CtBreaker.Resolve: the single receiving loop is modelled; the address checks around the lookup are not.
- ConntrackReplies.RequestWalks: address zones are not modelled, as they are not on the wire.
- Datagram.Seal: packet numbers of 2^32 and more, and payloads beyond the two-byte length, which it would print truncated.
- SourceLimiterExact.BoundedExactly: tables of 2^32 entries and more.
- LoomLink.PutIsStep: stated below 10^6 puts in a run, where names sort in order; the protocol itself only needs new names.
- The slices sort.Slice works on in place: sorting is modelled on values, as any order the source may end with.
- DNS message contents, EDNS and NetBIOS, TLS records, ClientHello fields other than the transport parameters, logging, configuration, sockets and the personas: they would add easy members only.
