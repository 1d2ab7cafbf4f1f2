# libevent: verified models of its buffers, event queues, rate limits and wire formats

The repository vendors libevent. This project models the parts of its C sources that carry real state and arithmetic, and proves
what they promise. Each module follows one source file, or one concern of it.

| files | what they model |
|---|---|
| `Bytes.dfy`, `Blocks.dfy`, `ChainLists.dfy`, `EvBuffer.dfy` | the evbuffer: a byte queue in a singly linked list of partly filled chains (`buffer.c`) |
| `EvSearch.dfy`, `EvLines.dfy` | positions in an evbuffer, searches across chains, ends of lines and reading a line (`buffer.c`) |
| `EpollTable.dfy`, `Evmap.dfy` | which events are wanted on which fd, the changelist, and the epoll backend with its op table |
| `TokenBuckets.dfy`, `RateLimits.dfy` | token buckets with wrapping ticks; limits of a bufferevent and of a group of them |
| `Events.dfy`, `MinHeap.dfy` | the queues of an event base, common timeouts, deferred callbacks; the heap of timeouts |
| `Tagging.dfy`, `TagStreams.dfy` | the tagged stream codec, as functions on byte strings and as loops over evbuffers |
| `DnsNames.dfy`, `Nameservers.dfy` | DNS name compression and parsing; the ring of nameservers |
| `Arc4Random.dfy` | the arc4random generator and its uniform numbers |

How the parts are modelled:

- **evbuffer.** `EvBuffer` and `Chain` are classes with the fields of the C structs; `last_with_datap` is a `Slot`, which names either
  the field `first` of a buffer or the field `next` of a chain. The ghost fields `chains` and `views` list the chains and their data.
  `Core` is the documented invariant: the list runs from `first` to `last` without a cycle, `total_len` is the number of bytes held modulo 2^64,
  each chain's data lies within its memory, no two chains share memory that one of them may write, `last_with_datap` is the slot of
  the last chain with data (or of the first chain), and all later chains are empty. Counters are of type size_t and wrap;
  `Countable` says that the length is one they can hold. `Ledger` says that the counters kept for the callbacks account for every
  change of length since the last report. `Contents` is the byte string; every public operation
  equates the new `Contents` with a function of the old one.
- **changelist.** The kernel is a map from fds to what epoll holds for them, with the error codes of `epoll_ctl`. `Booked` says that the
  counts of an fd match its events, that fds and slots of the changelist are in bijection, and that each pending change leads to
  the kinds wanted. Closing an fd and opening it again without telling libevent makes it `stale` until the next change is applied to it.
- **groups.** The try-locks are nondeterministic. Adding a member to a group is split where its lock is held and that of the group is
  not, so that anything may happen to the group in between.
- **event base.** Events are values in a sequence, and the lists hold their indices. `Books` says that each flag is set exactly when the
  event is in the list it stands for and that both counters are exact; `Timed` says that each common timeout list is in order of
  time and that its internal timer is active, or in the heap no later than the first event of the list.
- **wire formats.** Encoders and decoders are functions on byte strings with round-trip theorems; the loops that compute them, over
  arrays and evbuffers, are methods proved equal to these functions.

Where the code and its documentation disagree, the model follows the code:

- The comment in `event_tagging.c` gives tags and integers in big-endian order, and the tag 0x166 as `[82 66]`. The code writes
  the least significant group first, so that tag is `[e6 02]`.
- `name_parse` takes any length byte of 64 or more for a pointer, also those from 64 to 191, which section 4.1.4 of RFC 1035 reserves.

Properties that the code does not have, each with the exact condition under which it does and an input at which it does not:

- `evbuffer_remove_buffer` ignores the result of its inner `evbuffer_add` and adds up the counters without a check. Every byte
  arrives in a destination whose total_len is right if and only if a size_t can hold the new length (`Blocks.ArrivingAll`); otherwise
  bytes are lost (`Blocks.ArrivingNone`) or the counter is wrong (`Blocks.ArrivingWrapped`). `evbuffer_add_buffer`,
  `evbuffer_prepend_buffer` and `evbuffer_add_reference` do not check the sum either: they always leave a well-formed list whose
  total_len is the length modulo 2^64 (`EvBuffers.EvBuffer.Sound`), and a valid buffer whenever that is the length.
- The refill formula is exact if and only if the limit is at most the maximum, or so many ticks have passed that its unsigned
  arithmetic comes round (`TokenBuckets.RefillExact`; not so at `TokenBuckets.RefillAbove`).
- Two refills are one if and only if the first does nothing, the second sees no tick, or together they are at most INT_MAX ticks
  (`TokenBuckets.UpdatePathIndependent`; not so at `TokenBuckets.PathDependent`).
- The closing zero of a DNS name is written without a look at the space left. It lies outside the space given if and only if no
  pointer ends the name, the name does not end in a dot, and its labels fill the space (`DnsNames.EncodedLength`, for every name
  and table; `DnsNames.OverrunWithTable`).
- A compression pointer leads back where it should if and only if the position fits 14 bits (`DnsNames.PointerExact`; not so at
  `DnsNames.PointerWrong`).
- Coalescing requests gives what applying them one by one gives if and only if the coalesced change is effective, or the
  kernel held just the wanted kinds before (`Evmaps.CoalescedIsOneByOne`; not so at `Evmaps.CoalescedDiffers`).
- A limit that a refund has lifted above its maximum may overrun ssize_t in a refill and come out at zero or below, with nobody
  suspended: if and only if limit and credit together are above SSIZE_MAX and at most 2^64 (`TokenBuckets.RefreshedIs`; so it is at
  `TokenBuckets.RefreshOverruns`).
- `evbuffer_ptr_set` gives back a position if and only if it fits an ssize_t (`EvSearch.PtrSet`; not so at `EvSearch.PtrSetWraps`).
- A frame can be unmarshalled again if and only if an int can hold the length of its payload, and an ssize_t the number of bytes from
  its length on (`Tagging.FrameRound`; not so at `Tagging.FrameLost`).
- `decode_tag_internal` stays within the bytes it has made contiguous unless there are more than five and the first five do not end a
  tag of 32 bits (`TagStreams.ScanTag`; at `TagStreams.SixthOutside` the byte it reads lies outside the memory of its block).
- A charge by the user that uses up the limit of a group leaves it suspended, unless the group was running at a limit of zero
  (`RateLimits.Group.DecrementLimit`, with the exact condition; `RateLimits.Overdrawn` is a run that gets there).
- Ticks can be counted unless their length in milliseconds is a multiple of 2^32, as it is for those shorter than a millisecond
  (`TokenBuckets.CfgTicks`; not so at `TokenBuckets.CfgNoTicks`).

## Model

| member | source | states |
|---|---|---|
| EvBuffers.EvBuffer.FreeTrailingEmptyChains | libtor-src/libevent-src/buffer.c:290-303 | exactly the empty chains behind the last one with data are cut off; the bytes and that chain stay, and the slot returned is the end of the list |
| EvBuffers.EvBuffer.ChainInsert | libtor-src/libevent-src/buffer.c:308-327 | the chain replaces the trailing empty chains at the end of the list; its bytes are appended, and last_with_datap moves to it exactly when it has data |
| EvBuffers.EvBuffer.InsertNew | libtor-src/libevent-src/buffer.c:329-337 | the list ends in a new chain with the room asked for and the bytes are the same |
| EvBuffers.EvBuffer.RunCallbacks | libtor-src/libevent-src/buffer.c:455-511 | a report is made exactly when there are callbacks and a change; it starts at the length where the last one ended and adds up to the present length, in size_t; it goes to exactly the callbacks whose flags ask for this pass; the counters are cleared unless a deferred pass is to come |
| EvBuffers.EvBuffer.InvokeCallbacks | libtor-src/libevent-src/buffer.c:513-531 | afterwards no change waits to be told unless the deferred pass is scheduled, and deferred changes keep their counts |
| EvBuffers.EvBuffer.DeferredCallback | libtor-src/libevent-src/buffer.c:533-547 | the deferred pass reports all that has waited, to the enabled callbacks that do not ask to be called at once, and nothing waits any more |
| EvBuffers.CalledApart | libtor-src/libevent-src/buffer.c:463-477 | where callbacks are deferred each enabled one is called in exactly one of the two passes; where not, in the one |
| EvBuffers.EvBuffer.AdvanceLastWithData | libtor-src/libevent-src/buffer.c:703-721 | restores the invariant of last_with_datap after later chains may have got data |
| EvBuffers.EvBuffer.ZeroChain | libtor-src/libevent-src/buffer.c:799-807 | an empty well-formed buffer |
| EvBuffers.EvBuffer.CopyChain | libtor-src/libevent-src/buffer.c:874-886 | the destination holds just the chains and bytes of the source, last_with_datap translated to its own slots |
| EvBuffers.EvBuffer.AppendChain | libtor-src/libevent-src/buffer.c:888-905 | splices all chains of the source behind those of the destination that are kept; the bytes are concatenated and the list is well formed |
| EvBuffers.EvBuffer.PrependChain | libtor-src/libevent-src/buffer.c:947-963 | splices all chains of the source in front; the bytes are concatenated and the list is well formed |
| EvBuffers.EvBuffer.AddBuffer | libtor-src/libevent-src/buffer.c:965-1009 | all bytes move behind those of the destination, in order, and the source is empty, or on a frozen buffer or an empty source nothing changes; the two share nothing afterwards; total_len is the length modulo 2^64, and so the length whenever that fits |
| EvBuffers.EvBuffer.PrependBuffer | libtor-src/libevent-src/buffer.c:1054-1098 | all bytes move in front of those of the destination, in order, and the source is empty, or nothing changes; the two share nothing afterwards; total_len is the length modulo 2^64 |
| EvBuffers.EvBuffer.Drain | libtor-src/libevent-src/buffer.c:1100-1166 | drops exactly the first n bytes, all if there are fewer, or fails on a frozen start and changes nothing; both counters and the invariant are kept |
| EvBuffers.EvBuffer.DrainWalk | libtor-src/libevent-src/buffer.c:1130-1151 | the walk stops in the chain that holds the first byte to keep, and resets last_with_datap exactly when its chain is passed or reached |
| EvBuffers.EvBuffer.Remove | libtor-src/libevent-src/buffer.c:1169-1181 | copies a prefix out and drops just these bytes; the rest of the destination array is untouched; the number of bytes comes back converted to int |
| EvBuffers.EvBuffer.CopyoutFrom | libtor-src/libevent-src/buffer.c:1189-1254 | copies the bytes from a position on, as many as asked for and there, and changes no byte of the buffer or behind the copy |
| EvBuffers.EvBuffer.RemoveBuffer | libtor-src/libevent-src/buffer.c:1259-1347 | a prefix leaves the source, and the destination gets it except for what the ignored result of evbuffer_add loses, stated exactly with the unchecked sum of the counters; the number of bytes comes back converted to int |
| EvBuffers.EvBuffer.MoveWhole | libtor-src/libevent-src/buffer.c:1292-1323 | the whole chains within the first datlen bytes change buffers, and both lists are well formed again, with a counter that wraps |
| Blocks.ArrivingAll | libtor-src/libevent-src/buffer.c:1285-1330 | after a partial move every byte has arrived and the counter of the destination is its length, if and only if a size_t can hold that length; and exactly when bytes are lost |
| Blocks.ArrivingNone | libtor-src/libevent-src/buffer.c:1325-1330 | an instance in which a byte is lost |
| Blocks.ArrivingWrapped | libtor-src/libevent-src/buffer.c:1321-1322 | an instance in which all bytes arrive and the counter comes round to zero |
| EvBuffers.EvBuffer.Pullup | libtor-src/libevent-src/buffer.c:1349-1461 | the bytes are the same, and the first size of them, or all for a negative size, lie contiguously in the first chain, unless there are not so many; all that is asked is what the code asserts |
| EvBuffers.EvBuffer.PullWalk | libtor-src/libevent-src/buffer.c:1419-1442 | the copying loop gathers the prefix in order and says exactly whether the last chain with data, or the chain before it, was freed |
| Blocks.PullBlocks | libtor-src/libevent-src/buffer.c:1349-1461 | gathering the first n bytes in one block in front of the rest leaves the byte string and tells which block is the last with data |
| EvBuffers.EvBuffer.Add | libtor-src/libevent-src/buffer.c:1729-1824 | appends exactly the data, or fails on a frozen end or a full counter and changes nothing |
| EvBuffers.EvBuffer.AddSpill | libtor-src/libevent-src/buffer.c:1792-1816 | the data is split between the free space of the last chain and a new one without loss |
| EvBuffers.EvBuffer.Prepend | libtor-src/libevent-src/buffer.c:1826-1910 | prepends exactly the data, or fails and changes nothing |
| ChainLists.AlignAt | libtor-src/libevent-src/buffer.c:1913-1920 | moving the data of a chain to the start of its memory changes no byte of any chain |
| EvBuffers.EvBuffer.ExpandSingleChain | libtor-src/libevent-src/buffer.c:1938-2046 | the bytes are the same, and a chain at or behind the last one with data has room for datlen more |
| EvBuffers.EvBuffer.ExpandFast | libtor-src/libevent-src/buffer.c:2050-2158 | the bytes are the same, and at most n chains from the last one with data on have room for datlen more bytes in all |
| EvBuffers.EvBuffer.FastWalk | libtor-src/libevent-src/buffer.c:2071-2096 | the counting loop adds up the free space exactly, and either finds enough or ends with the number of chains and the space counted |
| EvBuffers.EvBuffer.AddReference | libtor-src/libevent-src/buffer.c:2920-2958 | the referenced memory is appended without a copy, as the last chain, which is never written; total_len is the length modulo 2^64 |
| EvSearch.PtrSet | libtor-src/libevent-src/buffer.c:2622-2672 | finds the chain and offset of any position within the buffer, up to its end, and fails exactly beyond it or on overflow; the number of the position is converted to ssize_t, so that the result is a position if and only if it fits |
| EvSearch.PtrSetWraps | libtor-src/libevent-src/buffer.c:2634-2640 | an instance in which the end of the buffer is found and its number comes out negative |
| EvSearch.PtrMemcmp | libtor-src/libevent-src/buffer.c:2678-2712 | the sign of the first difference between the bytes at the position and those given, across chains, and -1 where they do not fit; zero if and only if the bytes occur there |
| EvSearch.CompareWalk | libtor-src/libevent-src/buffer.c:2693-2711 | the chain by chain comparison gives the sign of the first difference of the two byte strings |
| EvSearch.SearchRange | libtor-src/libevent-src/buffer.c:2720-2782 | the least position at or behind the start where the bytes occur and end in time, or not-found exactly when there is none; terminates |
| EvSearch.SearchStep | libtor-src/libevent-src/buffer.c:2747-2775 | one turn of the loop skips no match, and moves the position or the chain on |
| EvLines.FindEolIn | libtor-src/libevent-src/buffer.c:1495-1520 | the scan by chunks of 128 bytes finds the first CR or LF, as a plain scan does |
| EvLines.FindByte | libtor-src/libevent-src/buffer.c:1473-1542 | the first position from the start on that holds the byte sought, or none; the pointer found denotes it |
| EvLines.StrSpn | libtor-src/libevent-src/buffer.c:1544-1581 | the length of the run of CR and LF at a position, across chains, and the position of its end |
| EvLines.GetChr | libtor-src/libevent-src/buffer.c:1584-1594 | the byte at a position, and -1 at the end |
| EvLines.PtrSubtract | libtor-src/libevent-src/buffer.c:2602-2620 | the position so many bytes before, across chains; it fails exactly when there is no position or it has fewer bytes before it |
| EvLines.SearchEol | libtor-src/libevent-src/buffer.c:1596-1684 | the first end of line of the style from the start on, and its length |
| EvLines.EolIsFirst | libtor-src/libevent-src/buffer.c:1596-1684 | from any start of the search on, no end of line of the style starts before the one found, and there is none when none is found |
| EvLines.EolIsWhole | libtor-src/libevent-src/buffer.c:1596-1684 | from any start, the terminator is the whole run of CR and LF, or CR LF, or one byte, as the style asks; CRLF style takes the CR if there is one behind the start |
| EvLines.Readln | libtor-src/libevent-src/buffer.c:1686-1723 | the old bytes are the line, its terminator and the new bytes; the line comes NUL-terminated, or NULL when there is none or the start is frozen, and then nothing changes |
| EpollTable.IndexMeaning | libtor-src/libevent-src/epolltable-internal.h:124-130 | the index splits a change into old kinds and changes so that the kinds kept by the row are those the change leads to |
| EpollTable.TableSets | libtor-src/libevent-src/epolltable-internal.h:136-1164 | for every change that leaves some kind wanted the row holds exactly the epoll events of these kinds, as ADD when none was enabled and MOD otherwise |
| EpollTable.TableDrops | libtor-src/libevent-src/epolltable-internal.h:136-1164 | for every change that leaves none the row is a DEL |
| EpollTable.TableIdle | libtor-src/libevent-src/epolltable-internal.h:136-1164 | for every change without an effect the row has no events, so that no call is made |
| EpollTable.Rows0Keep | libtor-src/libevent-src/epolltable-internal.h:139-267 | rows 0 to 63, with no kind enabled before, hold the kinds kept |
| EpollTable.Rows7Keep | libtor-src/libevent-src/epolltable-internal.h:1036-1164 | rows 448 to 511, with all kinds enabled before, hold the kinds kept |
| Evmaps.RowMeaning | libtor-src/libevent-src/epolltable-internal.h:124-1164 | the row of a change in terms of the kinds it leads to |
| Evmaps.EventBase.ApplyOneChange | libtor-src/libevent-src/epoll.c:266-353 | whatever the kernel holds for the fd, the retries of ADD as MOD and of MOD as ADD leave exactly the kinds the change leads to, or report failure on an fd it cannot watch |
| Evmaps.AppliedAgrees | libtor-src/libevent-src/epoll.c:266-353 | an effective change leaves the kernel with exactly its outcome, and any other leaves it be |
| Evmaps.EventBase.ApplyChanges | libtor-src/libevent-src/epoll.c:355-372 | every fd with a pending change gets just that change, and no other fd is touched |
| Evmaps.EventBase.NochangelistAdd | libtor-src/libevent-src/epoll.c:374-393 | an add applied at once leaves the old kinds and those of the event, or reports that the fd cannot be watched |
| Evmaps.EventBase.NochangelistDel | libtor-src/libevent-src/epoll.c:395-414 | a delete applied at once leaves the old kinds without those of the event |
| Evmaps.NowOutcome | libtor-src/libevent-src/epoll.c:374-414 | a change applied at once leads to the old kinds with, or without, the kinds of the event |
| Evmaps.EventBase.Dispatch | libtor-src/libevent-src/epoll.c:416-461 | after any history of adds and deletes, the kernel holds for each fd that is not stale exactly the kinds with a non-zero count, and the changelist is empty |
| Evmaps.EventBase.RemoveAll | libtor-src/libevent-src/evmap.c:778-797 | empties the changelist and the slot of every fd |
| Evmaps.EventBase.GetOrConstruct | libtor-src/libevent-src/evmap.c:834-863 | the slot of the fd, a new one at the end of the list if it had none |
| Evmaps.ConstructedBooked | libtor-src/libevent-src/evmap.c:834-863 | fds and slots stay in bijection, and what the kernel was last told does not change |
| Evmaps.EventBase.ChangelistAdd | libtor-src/libevent-src/evmap.c:865-893 | records the add in the slot of the fd and leaves all others |
| Evmaps.EventBase.ChangelistDel | libtor-src/libevent-src/evmap.c:895-946 | records the delete in the slot of the fd and leaves all others |
| Evmaps.AddOutcome | libtor-src/libevent-src/evmap.c:865-893 | a recorded add enables its kinds and no other |
| Evmaps.DelOutcome | libtor-src/libevent-src/evmap.c:895-946 | a recorded delete disables its kinds and no other, also where it undoes an add that was never applied |
| Evmaps.ReplacedBooked | libtor-src/libevent-src/evmap.c:734-770 | the changelist is consistent after an entry and its change are replaced together |
| Evmaps.CoalescedOutcome | libtor-src/libevent-src/evmap.c:865-946 | however a history of requests is coalesced, the change leads to the kinds that remain wanted |
| Evmaps.OneByOneExactly | libtor-src/libevent-src/epoll.c:374-414 | applying a history of requests one by one leaves exactly the kinds wanted |
| Evmaps.CoalescedIsOneByOne | libtor-src/libevent-src/epoll.c:355-414 | applying the coalesced change equals applying each request at once, if and only if that change is effective or the kernel held just the old kinds |
| Evmaps.CoalescedDiffers | libtor-src/libevent-src/epoll.c:355-414 | an instance in which they differ: a watched fd that was closed and opened again |
| Evmaps.CountPositive | libtor-src/libevent-src/evmap.c:951-980 | a count is above zero exactly when one of the events of the fd asks for the kind |
| Evmaps.WithoutCount | libtor-src/libevent-src/evmap.c:353-417 | taking an event off the list lowers the counts of its kinds by one and no other |
| Evmaps.EventBase.IoAdd | libtor-src/libevent-src/evmap.c:272-349 | the event joins the list of the fd, the counts match, the backend hears of new kinds only; it fails exactly on a full count, on mixed edges in debug mode or on a refusal by the kernel, and then nothing has changed; all invariants are kept |
| Evmaps.EventBase.IoDel | libtor-src/libevent-src/evmap.c:353-417 | the event leaves the list of the fd, the counts match, the backend hears of lost kinds only; all invariants are kept |
| TokenBuckets.CfgNew | libtor-src/libevent-src/bufferevent_ratelim.c:142-173 | a configuration exists exactly for rates of at least one, not above the bursts, all within the limit |
| TokenBuckets.CfgTicks | libtor-src/libevent-src/bufferevent_ratelim.c:170-171 | the tick length is zero milliseconds exactly when the milliseconds are a multiple of 2^32; below 2^32 milliseconds, exactly for ticks below a millisecond |
| TokenBuckets.CfgNoTicks | libtor-src/libevent-src/bufferevent_ratelim.c:170-171 | two tick lengths that come out as zero: half a millisecond, and 2^32 milliseconds |
| TokenBuckets.TickDifference | libtor-src/libevent-src/bufferevent_ratelim.c:126-140 | the unsigned difference of two tick numbers is the number of tick boundaries between, modulo 2^32 |
| TokenBuckets.RefillExact | libtor-src/libevent-src/bufferevent_ratelim.c:96-105 | the overflow-avoiding refill is the minimum of the maximum and the limit with its credit, if and only if the limit is at most the maximum or the credit comes round 2^64 |
| TokenBuckets.RefillAbove | libtor-src/libevent-src/bufferevent_ratelim.c:96-105 | an instance in which a limit above the maximum is not cut to it |
| TokenBuckets.UpdatePathIndependent | libtor-src/libevent-src/bufferevent_ratelim.c:73-111 | refilling at one tick and then at another is refilling once at the other, if and only if the first refill does nothing, the second sees no tick, or both together are at most INT_MAX ticks |
| TokenBuckets.PathDependent | libtor-src/libevent-src/bufferevent_ratelim.c:80-85 | an instance in which two steps are not one: together they count as a step back |
| TokenBuckets.UpdatedWithin | libtor-src/libevent-src/bufferevent_ratelim.c:73-111 | a refill keeps both limits within the maximum and never lowers them |
| TokenBuckets.Init | libtor-src/libevent-src/bufferevent_ratelim.c:49-71 | a new bucket holds one tick's rate; a reinitialised one is cut to the new maximum |
| TokenBuckets.Update | libtor-src/libevent-src/bufferevent_ratelim.c:73-111 | credits exactly the ticks passed, up to the maximum, to limits within it; no tick, or a step back, changes nothing |
| TokenBuckets.RefreshedIs | libtor-src/libevent-src/bufferevent_ratelim.c:73-111 | an update does to limits within the maximum what it must, and takes a limit above zero to zero or below if and only if the limit is above the maximum and overruns ssize_t |
| TokenBuckets.RefreshOverruns | libtor-src/libevent-src/bufferevent_ratelim.c:96-105 | an instance in which one tick turns the greatest limit into the least |
| TokenBuckets.RunBound | libtor-src/libevent-src/bufferevent_ratelim.c:197-345 | over any run of transfers within the limit in force the limit never drops below zero, and the bytes moved are at most the maximum plus the credited ticks times the rate |
| TokenBuckets.CreditElapsed | libtor-src/libevent-src/bufferevent_ratelim.c:73-140 | no more ticks are credited than have elapsed, however often tick numbers wrap |
| TokenBuckets.ElapsedBound | libtor-src/libevent-src/bufferevent_ratelim.c:73-345 | bytes moved over k elapsed ticks are at most the maximum plus k times the rate |
| TokenBuckets.ReachesThreshold | libtor-src/libevent-src/bufferevent_ratelim.c:528-557 | a limit reaches a threshold up to its rate after finitely many ticks, and exactly from that number on |
| TokenBuckets.LookRun | libtor-src/libevent-src/bufferevent_ratelim.c:73-111 | over any run of refills the limit grows by the rate for each tick credited, up to the maximum |
| TokenBuckets.AdvancingCredit | libtor-src/libevent-src/bufferevent_ratelim.c:73-111 | refills that each find a new tick credit at least one tick each |
| TokenBuckets.RunReachesThreshold | libtor-src/libevent-src/bufferevent_ratelim.c:528-557 | a run of refills brings the limit to a threshold exactly when it credits enough ticks, in one refill or in many |
| RateLimits.Bufferevent.Suspend | libtor-src/libevent-src/bufferevent.c:66-97 | the reason is added, the direction stops running if it ran, the other direction is left |
| RateLimits.Bufferevent.Unsuspend | libtor-src/libevent-src/bufferevent.c:77-108 | the reason is taken away; the direction runs again exactly when no reason is left and the user enabled it |
| RateLimits.Bufferevent.Enable | libtor-src/libevent-src/bufferevent.c:481-503 | the directions are enabled, and run exactly if nothing suspends them |
| RateLimits.Bufferevent.Disable | libtor-src/libevent-src/bufferevent.c:572-587 | the directions are disabled and do not run; what suspends them stays |
| RateLimits.Bufferevent.UpdateBuckets | libtor-src/libevent-src/bufferevent_ratelim.c:113-124 | refills the bucket to the present tick, whatever its limits; the invariant is kept if and only if no direction that runs loses its limit to an overrun |
| RateLimits.Bufferevent.GetRlimMax | libtor-src/libevent-src/bufferevent_ratelim.c:197-258 | for a bufferevent without a group, its limit after a refill, or its single maximum, and never below zero; the invariant is kept if and only if the refill does not overrun |
| RateLimits.Bufferevent.ChargeOwn | libtor-src/libevent-src/bufferevent_ratelim.c:272-308 | the bytes are charged, or refunded when negative; suspended for bandwidth exactly when the limit is used up, and then a refill is pending |
| RateLimits.Bufferevent.DecrementLimit | libtor-src/libevent-src/bufferevent_ratelim.c:968-1020 | charged or refunded by the user: a limit used up leaves the direction suspended with a refill pending, one that rises above zero wakes it |
| RateLimits.Bufferevent.RefillCallback | libtor-src/libevent-src/bufferevent_ratelim.c:393-439 | refills, wakes exactly the directions with a limit above zero, and keeps the timer while one is suspended; the invariant is kept if and only if the refill does not overrun |
| RateLimits.Bufferevent.SetRateLimit | libtor-src/libevent-src/bufferevent_ratelim.c:559-635 | switches the configuration on, over or off; suspended for bandwidth exactly when the new limit is used up |
| RateLimits.Group.constructor | libtor-src/libevent-src/bufferevent_ratelim.c:637-669 | an empty group that is not suspended |
| RateLimits.Group.SuspendAll | libtor-src/libevent-src/bufferevent_ratelim.c:348-389 | the group is suspended and owes no wakeup, whichever try-locks fail |
| RateLimits.Group.UnsuspendAll | libtor-src/libevent-src/bufferevent_ratelim.c:474-523 | every member that stays marked, for a failed try-lock or a lock held elsewhere, leaves a wakeup pending |
| RateLimits.Group.RefillCallback | libtor-src/libevent-src/bufferevent_ratelim.c:528-557 | refills, and unsuspends a direction exactly when a wakeup is owed or its limit has reached a share; no wakeup is lost; a limit below zero goes with a suspended group afterwards, too, unless a refill overruns |
| RateLimits.Group.Released | libtor-src/libevent-src/bufferevent_ratelim.c:474-557 | a direction neither suspended nor owed a wakeup has no marked member: no lost wakeup |
| RateLimits.Group.RefillCallbacks | libtor-src/libevent-src/bufferevent_ratelim.c:528-557 | over any run of refill callbacks a suspended direction is released exactly when the ticks credited bring its limit to a share, and so at the latest when that many callbacks have each found a new tick |
| RateLimits.Group.Charge | libtor-src/libevent-src/bufferevent_ratelim.c:295-305 | the group's limit and totals are charged, and the group is suspended exactly when the limit is used up |
| RateLimits.Group.Decrement | libtor-src/libevent-src/bufferevent_ratelim.c:272-346 | both the member and the group are charged or refunded, and each suspended exactly when its limit is used up |
| RateLimits.Group.DecrementLimit | libtor-src/libevent-src/bufferevent_ratelim.c:1024-1062 | charged or refunded by the user: the invariant of the group is kept, and no wakeup lost, exactly unless a charge meets a group that runs at a limit of zero |
| RateLimits.Overdrawn | libtor-src/libevent-src/bufferevent_ratelim.c:1024-1042 | a run of operations after which the limit is below zero and the group not suspended |
| RateLimits.Group.GetRlimMax | libtor-src/libevent-src/bufferevent_ratelim.c:197-258 | the lesser of a member's own limit and its share of the group's; zero, with the member marked, while the group is suspended |
| RateLimits.ShareBounds | libtor-src/libevent-src/bufferevent_ratelim.c:245-249 | the shares of all members together stay within the group's limit or the minimum shares, and waste less than one each |
| RateLimits.Group.SetCfg | libtor-src/libevent-src/bufferevent_ratelim.c:671-700 | the limits are cut to the new maxima, and the minimum share to the new rates |
| RateLimits.Group.SetMinShare | libtor-src/libevent-src/bufferevent_ratelim.c:702-721 | the minimum share is never above either rate; too large a share fails and changes nothing |
| RateLimits.Group.StartJoining | libtor-src/libevent-src/bufferevent_ratelim.c:761-769 | a member enters the list under both locks, and the marks it found due are remembered, whatever the limits |
| RateLimits.Group.EndJoining | libtor-src/libevent-src/bufferevent_ratelim.c:771-777 | whatever happened to the group in between, setting the marks late loses no wakeup |
| RateLimits.Group.Remove | libtor-src/libevent-src/bufferevent_ratelim.c:780-807 | a member leaves the group, and loses the group's marks only, where it is to be unsuspended |
| Events.EventBase.InitCommonTimeout | libtor-src/libevent-src/event.c:1484-1558 | the list that the normalised duration has, or a new empty one with an internal timer of its own, or none when there are 256 others |
| Events.EventBase.CommonTimeoutSchedule | libtor-src/libevent-src/event.c:1449-1456 | the timer of a list waits for the time of its first event |
| Events.EventBase.CommonTimeoutCallback | libtor-src/libevent-src/event.c:1461-1482 | exactly the due events of the list fire, in order, and the timer is set for the first other |
| Events.EventBase.FireDue | libtor-src/libevent-src/event.c:1470-1478 | the loop fires a prefix of the list, which is exactly its due events |
| Events.EventBase.ProcessSingleQueue | libtor-src/libevent-src/event.c:1633-1751 | a pass over a queue terminates however many deferred callbacks each callback schedules. The deferred callbacks it runs and those it leaves are at most those queued and 33 less those already counted, given that none waits in a common timeout list; all callbacks it runs and leaves are at most those queued, those that common timeouts can add, and the same |
| Events.FiredFewer | libtor-src/libevent-src/event.c:1468-1477 | a common timeout that fires makes no callback active but the one that waited |
| Events.RemovedFewer | libtor-src/libevent-src/event.c:2810-2898 | deleting an event takes just that one out of its active queue, and adds to no common timeout list |
| Events.EventBase.TakeFirst | libtor-src/libevent-src/event.c:1643-1670 | the first callback leaves its queue, and what is ahead shrinks by one |
| Events.EventBase.RunDeferred | libtor-src/libevent-src/event.c:1694-1699 | scheduling any list of deferred callbacks in a pass does not add to what is ahead |
| Events.EventBase.Assign | libtor-src/libevent-src/event.c:2112-2161 | a new event, in no list |
| Events.EventBase.AddNolock | libtor-src/libevent-src/event.c:2596-2766 | the event is in the maps and waits for its time as asked, failing exactly when the maps do and then without a change; a timeout that made it active is withdrawn; all books are kept |
| Events.EventBase.SetTimeout | libtor-src/libevent-src/event.c:2683-2742 | the event waits for its new time, and if it is the first of a common timeout list the timer of the list is set |
| Events.EventBase.DelNolock | libtor-src/libevent-src/event.c:2809-2898 | the event is in no list, and every list loses it alone |
| Events.EventBase.ActiveNolock | libtor-src/libevent-src/event.c:2918-2967 | active for its old reasons and the new, moved out of the later queue if there; a higher priority than the running one interrupts the pass |
| Events.EventBase.CallbackActivate | libtor-src/libevent-src/event.c:3005-3034 | active exactly once, wherever it was |
| Events.EventBase.CallbackActivateLater | libtor-src/libevent-src/event.c:3036-3047 | at the end of the later queue unless it is already active or later |
| Events.EventBase.CallbackCancel | libtor-src/libevent-src/event.c:3068-3096 | an event is deleted, and any other callback leaves its queue; no other callback moves |
| Events.EventBase.DeferredSchedule | libtor-src/libevent-src/event.c:3123-3140 | up to 33 callbacks of a pass become active at once, all others wait for the next pass |
| Events.EventBase.TimeoutNext | libtor-src/libevent-src/event.c:3142-3177 | the wait is none exactly when no event is pending, never beyond the earliest deadline of the heap and of all common timeout lists, and otherwise the time of a pending event |
| Events.EventBase.EarlierInHeap | libtor-src/libevent-src/event.c:1449-1482 | with nothing active, some event in the heap is due no later than any pending event, in a common timeout list or not |
| Events.EventBase.TimeoutProcess | libtor-src/libevent-src/event.c:3180-3204 | exactly the due events of the heap fire, and no other event or list changes |
| Events.EventBase.Fire | libtor-src/libevent-src/event.c:3197-3202 | an event whose time has come leaves all lists and becomes active for TIMEOUT |
| Events.EventBase.RemoveInserted | libtor-src/libevent-src/event.c:3223-3234 | flag and count agree |
| Events.EventBase.RemoveActive | libtor-src/libevent-src/event.c:3235-3250 | the callback leaves the queue of its priority, flag and counts agree |
| Events.EventBase.RemoveLater | libtor-src/libevent-src/event.c:3251-3265 | the callback leaves the later queue, flag and counts agree |
| Events.EventBase.RemoveTimeout | libtor-src/libevent-src/event.c:3266-3286 | the event leaves its common timeout list or the heap, flag and count agree |
| Events.EventBase.InsertInOrder | libtor-src/libevent-src/event.c:3330-3358 | the list stays sorted, and the event goes behind all that are due no later |
| Events.EventBase.InsertInserted | libtor-src/libevent-src/event.c:3360-3374 | flag and count agree |
| Events.EventBase.InsertActive | libtor-src/libevent-src/event.c:3376-3395 | at the end of the queue of its priority, once; flag and counts agree |
| Events.EventBase.InsertLater | libtor-src/libevent-src/event.c:3397-3412 | at the end of the later queue, unless active or later already |
| Events.EventBase.InsertTimeout | libtor-src/libevent-src/event.c:3414-3436 | into its common timeout list, in order, or into the heap; flag and count agree |
| Events.EventBase.MakeLaterActive | libtor-src/libevent-src/event.c:3438-3451 | every postponed callback joins the queue of its priority, in order, and deferred ones count against the next pass |
| Events.TotalUpdate | libtor-src/libevent-src/event.c:3208-3222 | event_count changes by the change in list memberships of the one event changed, and internal events do not count |
| Events.ActiveChanged | libtor-src/libevent-src/event.c:3963-4020 | flipping the active flag along with the queue keeps every list and flag consistent |
| Events.CommonChanged | libtor-src/libevent-src/event.c:3963-4020 | flipping the timeout flag along with a common timeout list keeps every list and flag consistent |
| Events.TimedInsert | libtor-src/libevent-src/event.c:2737-2742 | only a new first event makes the timer of its list due for resetting |
| Events.FireAllAt | libtor-src/libevent-src/event.c:1470-1478 | firing a list of events changes each of them once and no other |
| Events.DuePrefix | libtor-src/libevent-src/event.c:1470-1478 | in a sorted list the due events are a prefix |
| MinHeaps.MinHeap.Push | libtor-src/libevent-src/minheap-internal.h:71-77 | the element joins the heap, which stays in order with every index right |
| MinHeaps.MinHeap.Top | libtor-src/libevent-src/minheap-internal.h:69 | an element that comes no later than any other, or NULL exactly for an empty heap |
| MinHeaps.MinHeap.Pop | libtor-src/libevent-src/minheap-internal.h:79-89 | takes out an element that comes no later than any other, and that one only |
| MinHeaps.MinHeap.Erase | libtor-src/libevent-src/minheap-internal.h:96-115 | takes out the element wherever it is, or fails when it is in no heap |
| MinHeaps.MinHeap.Adjust | libtor-src/libevent-src/minheap-internal.h:117-131 | restores the order after the time of one element has changed, in either direction |
| MinHeaps.MinHeap.ShiftUp | libtor-src/libevent-src/minheap-internal.h:165-175 | with the element placed the heap is in order and holds the same elements |
| MinHeaps.MinHeap.ShiftUpUnconditional | libtor-src/libevent-src/minheap-internal.h:153-163 | the same where the parent is known to come later |
| MinHeaps.MinHeap.ShiftDown | libtor-src/libevent-src/minheap-internal.h:177-190 | with the element placed the heap is in order and holds the same elements |
| MinHeaps.UpStep | libtor-src/libevent-src/minheap-internal.h:168-173 | a parent that comes later may move down into the hole |
| MinHeaps.DownStep | libtor-src/libevent-src/minheap-internal.h:180-188 | the child that comes first may move up into the hole |
| MinHeaps.TopIsLeast | libtor-src/libevent-src/minheap-internal.h:61-69 | in heap order the first element is the least |
| Tagging.NibblesRound | libtor-src/libevent-src/event_tagging.c:121-142 | the nibbles of a number determine it |
| Tagging.IntRound | libtor-src/libevent-src/event_tagging.c:319-377 | integers of 32 and 64 bits are self-delimiting: decoding an encoding with anything behind it gives the number and its length |
| Tagging.IntFits | libtor-src/libevent-src/event_tagging.c:365-370 | whatever the bytes, an integer of at most 8 nibbles fits 32 bits and its encoding lies within them |
| Tagging.TagRound | libtor-src/libevent-src/event_tagging.c:177-252 | tags of 32 bits are self-delimiting and take at most 5 bytes |
| Tagging.DecodeTagShort | libtor-src/libevent-src/event_tagging.c:200-246 | whatever the bytes, a decoded tag fits 32 bits and its encoding lies within the first 5 |
| Tagging.GatheredFits | libtor-src/libevent-src/event_tagging.c:342-348 | the shifting accumulator never exceeds its nibbles |
| Tagging.FrameRound | libtor-src/libevent-src/event_tagging.c:260-267 | unmarshalling a marshalled frame with anything behind it gives back the frame and leaves the rest, if and only if an int can hold the length of the payload and an ssize_t the number of bytes from the length on |
| Tagging.FrameLost | libtor-src/libevent-src/event_tagging.c:319-326 | a payload of 2^31 bytes, and an empty one with too many bytes behind it, are not read back |
| Tagging.HeaderRound | libtor-src/libevent-src/event_tagging.c:441-455 | the header of a marshalled frame is read back for every 32-bit length, if and only if an ssize_t can hold the number of bytes from the length on |
| Tagging.StreamRound | libtor-src/libevent-src/event_tagging.c:441-484 | unmarshalling any list of marshalled frames until empty gives back the list, if and only if an int can hold the length of each payload and an ssize_t the number of bytes behind the first tag |
| TagStreams.EncodeIntInternal | libtor-src/libevent-src/event_tagging.c:121-154 | the loop over nibbles writes exactly the wire form of the integer |
| TagStreams.EncodeTagInternal | libtor-src/libevent-src/event_tagging.c:177-198 | the loop over groups of seven bits writes exactly the wire form of the tag |
| TagStreams.Marshal | libtor-src/libevent-src/event_tagging.c:260-267 | each of the three parts is added if the buffer takes it; the whole frame is, if and only if nothing is frozen and the counter has room |
| TagStreams.ScanTag | libtor-src/libevent-src/event_tagging.c:218-237 | the shifting loop computes the decoded tag, or fails exactly where there is none; it reads a sixth byte, beyond the five made contiguous, exactly when there are more bytes and five do not end a tag of 32 bits |
| TagStreams.DecodeTagInternal | libtor-src/libevent-src/event_tagging.c:200-252 | the tag at the front of a buffer and its length; it is drained exactly when asked for and not frozen; a byte that was not made contiguous is read exactly as in ScanTag |
| Tagging.SixthFails | libtor-src/libevent-src/event_tagging.c:217-224 | wherever the sixth byte is read the tag is refused, whatever it holds |
| TagStreams.SixthOutside | libtor-src/libevent-src/event_tagging.c:212-218 | a buffer of two referenced blocks for which the sixth byte lies outside the memory of the first |
| TagStreams.DecodeIntInternal | libtor-src/libevent-src/event_tagging.c:319-377 | the integer at an offset and its length, or failure exactly when the bytes do not hold one or an ssize_t cannot hold their number; the buffer keeps its bytes |
| TagStreams.DecodeIntFrom | libtor-src/libevent-src/event_tagging.c:379-397 | the integer at the front, which is drained |
| TagStreams.UnmarshalHeader | libtor-src/libevent-src/event_tagging.c:441-455 | tag and length are taken off the front and the length returned as an int, or failure when they or the payload are not there |
| TagStreams.Unmarshal | libtor-src/libevent-src/event_tagging.c:470-484 | the next frame's payload moves behind the bytes of the other buffer, and exactly the frame leaves the first; on failure the other buffer is untouched |
| DnsNames.NameParse | libtor-src/libevent-src/evdns.c:976-1030 | terminates on every packet, pointer cycles included, reads nothing beyond its end, and computes the name and the end index, or fails and leaves the index |
| DnsNames.ReadsParse | libtor-src/libevent-src/evdns.c:976-1030 | wherever the bytes stand for a list of labels, the parser finds that name and the index just behind it |
| DnsNames.SplitJoin | libtor-src/libevent-src/evdns.c:1639-1669 | the labels of a name, joined by dots, are the name |
| DnsNames.PointerExact | libtor-src/libevent-src/evdns.c:1641-1643 | a pointer leads back to a position if and only if that fits 14 bits |
| DnsNames.PointerWrong | libtor-src/libevent-src/evdns.c:1641-1643 | an instance in which the pointer leads elsewhere |
| DnsNames.DnsLabelTable.GetPos | libtor-src/libevent-src/evdns.c:1574-1583 | the position of the first entry for the name, or -1 exactly when there is none |
| DnsNames.DnsLabelTable.Add | libtor-src/libevent-src/evdns.c:1586-1601 | the entry is put at the end, or the table is full and unchanged |
| DnsNames.EncodeReads | libtor-src/libevent-src/evdns.c:1614-1678 | what is written for a name stands for it, and every new table entry for its own suffix, as long as the pointer used, if any, fits 14 bits |
| DnsNames.NameRound | libtor-src/libevent-src/evdns.c:1614-1678 | a name written anywhere in a message, compressed or not, is parsed back from there, whatever follows, as long as the pointer used, if any, fits 14 bits |
| DnsNames.TableRound | libtor-src/libevent-src/evdns.c:1574-1678 | every table entry keeps leading a parser to its own suffix |
| DnsNames.MessageRound | libtor-src/libevent-src/evdns.c:1614-1678 | after any sequence of names through one table, parsing at each start gives that name and its end, as long as the pointers used fit 14 bits |
| DnsNames.EncodedLength | libtor-src/libevent-src/evdns.c:1671-1675 | for every name and every table: the closing zero is at most one byte too far, and is so exactly when the table has no suffix of the name, the name does not end in a dot, and the labels fill the space |
| DnsNames.OverrunWithTable | libtor-src/libevent-src/evdns.c:1671-1675 | an instance with a table in which the closing zero lies outside the space given |
| DnsNames.ShortIsNear | libtor-src/libevent-src/evdns.c:1641-1643 | in a space of at most 0x4000 bytes every pointer used fits 14 bits |
| DnsNames.NameToLabels | libtor-src/libevent-src/evdns.c:1614-1678 | the loop over labels writes exactly the encoding, or returns its error code, and leaves the bytes before; it writes beyond the space given only where the closing zero overruns it |
| DnsNames.WriteLabel | libtor-src/libevent-src/evdns.c:1639-1669 | one turn of the loop: a pointer, or one more label |
| Nameservers.PicksFair | libtor-src/libevent-src/evdns.c:1349-1382 | with k servers up and no change of state, any k picks in a row return each of them exactly once and no other, in ring order |
| Nameservers.GoodIs | libtor-src/libevent-src/evdns.c:1349-1382 | the good servers are exactly those that are up, each once |
| Nameservers.EvdnsBase.Pick | libtor-src/libevent-src/evdns.c:1349-1382 | terminates; the next server that is up, if one is, and the ring goes on behind it; else the next one |
| Nameservers.GoodRotated | libtor-src/libevent-src/evdns.c:1349-1382 | going on behind the first server that is up rotates the list of those that are up by one |
| Nameservers.RingRotated | libtor-src/libevent-src/evdns.c:1362-1381 | moving the head on along the next pointers rotates the ring |
| Nameservers.EvdnsBase.Failed | libtor-src/libevent-src/evdns.c:561-619 | the server is down and counted so, once; the requests it had not sent yet go to servers that are up, if there are any, and no other request moves |
| Nameservers.EvdnsBase.Reassign | libtor-src/libevent-src/evdns.c:606-618 | the walk over the requests in flight moves exactly the unsent ones of the failed server |
| Nameservers.EvdnsBase.SwapNs | libtor-src/libevent-src/evdns.c:548-557 | the request changes servers, and both counts of requests in flight follow |
| Nameservers.EvdnsBase.Up | libtor-src/libevent-src/evdns.c:621-640 | the server is up and counted so, once, and its failures are forgotten |
| Nameservers.EvdnsBase.HasAddress | libtor-src/libevent-src/evdns.c:2511-2516 | the walk round the ring finds the address exactly when a server has it |
| Nameservers.EvdnsBase.Add | libtor-src/libevent-src/evdns.c:2501-2598 | a known address is refused without a change; a new server is up, counted, and put behind the head of the ring |
| Nameservers.EvdnsBase.Link | libtor-src/libevent-src/evdns.c:2579-2584 | the four pointer updates make a ring with the new server in it |
| Arc4Random.Arc4Stream.constructor | libtor-src/libevent-src/arc4random.c:99-108 | the table holds every byte once |
| Arc4Random.Arc4Stream.AddRandom | libtor-src/libevent-src/arc4random.c:110-125 | 256 steps of the key schedule on any data keep the table a permutation, and i ends one before where it started |
| Arc4Random.Arc4Stream.GetByte | libtor-src/libevent-src/arc4random.c:415-427 | one step of the generator, which keeps the table a permutation |
| Arc4Random.Arc4Stream.GetWord | libtor-src/libevent-src/arc4random.c:429-440 | the next four bytes of the stream, the first most significant |
| Arc4Random.StirredStep | libtor-src/libevent-src/arc4random.c:117-123 | the schedule after n + 1 bytes of data is one step beyond that after n, round the table |
| Arc4Random.AllBytes | libtor-src/libevent-src/arc4random.c:99-125 | a table of 256 different bytes holds every byte |
| Arc4Random.LeastExact | libtor-src/libevent-src/arc4random.c:520-530 | the 32-bit computation of min is 2^32 modulo the bound, for every bound from 2 on |
| Arc4Random.Unbiased | libtor-src/libevent-src/arc4random.c:512-545 | over the accepted draws every number below the bound comes up equally often |
| Arc4Random.Windows | libtor-src/libevent-src/arc4random.c:512-545 | among any q times n draws in a row each residue comes up q times |
| Arc4Random.Uniform | libtor-src/libevent-src/arc4random.c:512-545 | the residue of the first draw not below min, or zero for a bound below 2 |

## Left out

- EvBuffers.EvBuffer.AddReference: the cleanup callback and an offset into the referenced memory are not modelled; a reference chain
  shows its whole memory when it is made, and is never written.
- EvSearch.SearchRange: in a buffer of more than SSIZE_MAX bytes positions overflow a signed type, which C leaves undefined.
- EvLines.SearchEol: as for searches, buffers of more than SSIZE_MAX bytes are not modelled.
- EvLines.Readln: as for searches, buffers of more than SSIZE_MAX bytes are not modelled.
- EvBuffers.EvBuffer.RunCallbacks: the callbacks themselves are not run, so they change nothing; the report and who would get it are
  the results. Adding and removing callbacks, and their obsolete form, are not modelled.
- Events.EventBase.AddNolock: what the fd map or the signal map answers is a parameter, and so is the time read; finalizing events, and
  waking another thread, are not modelled.
- Events.EventBase.InitCommonTimeout: the growth of the array of lists is not modelled.
- Events.EventBase.ProcessSingleQueue: callbacks are modelled by what they may do to the queues: run the timer of a common timeout list, or
  schedule deferred callbacks; the re-adding of persistent timeouts, signal closures and finalizers are not modelled.
- Events.EventBase.RunDeferred: what a deferred callback does besides scheduling deferred callbacks is not modelled.
- Events.EventBase.CallbackCancel: finalizing callbacks are not modelled, and what the maps answer is a parameter.
- Events.EventBase.TimeoutProcess: the heap is a set from which an earliest event is taken; that the array heap provides one is proved in `MinHeaps`.
- MinHeaps.MinHeap.Push: the growth of the array, and its failure, are not modelled.
- RateLimits.Bufferevent.ChargeOwn: `event_add` of the refill timer always succeeds, and limits do not leave the range of ssize_t.
- RateLimits.Group.RefillCallbacks: a run starts from limits within their maxima; one callback is stated for any limits.
- RateLimits.Bufferevent.Enable: the backend always agrees to run or stop a direction.
- Nameservers.EvdnsBase.Add: sockets and the failures of making one are not modelled; nor are probes, their timers, and clearing the ring.
- Nameservers.EvdnsBase.Up: the count of timeouts since the last answer, and the request that probes the server, are not modelled.
- Nameservers.EvdnsBase.Failed: the hash lists of requests in flight are one list, and the probe timer is not started.
- DnsNames.NameToLabels: names with a zero byte are excluded, as C strings cannot hold them; where the closing zero overruns the space
  given, the array must be longer than that, since writing outside memory has no model.
- Arc4Random.Arc4Stream.AddRandom: gathering entropy, reseeding after a number of bytes or a fork, and locks are not modelled.
- Pinned and dangling chains, multicast chains and file segments of evbuffers; reserving and committing space, peeking, and printing.
- Failure of memory allocation, with the limit on the size of a chain; the 64-bit build's sizes are used for the header of a chain.
- Edge-triggered events mixed with others on one fd, signals, and the events epoll reports (`evmap_io_active_`); growth of the changelist's array.
- Strict priority among active queues in `event_process_active`, which a loop-continue in an internal batch breaks.
- Locks, threads and reference counts, except for the try-locks of rate-limit groups.
- Requests of the DNS resolver, their ids and timeouts, its configuration files; the tagged forms of strings, integers and times.
- Rust build scripts, sockets, OpenSSL, Windows and Solaris backends: calls into other systems.
