# A verified model of the Unikraft FUSE stack

The repository puts a Unikraft file-system driver in front of libfuse. A VFS call fills a request
on its own stack, queues it and sleeps. A daemon thread takes requests from the queue, writes each
in the FUSE wire format into one buffer, and lets libfuse dispatch it to a file system, whose reply
functions fill in the request and wake the caller. This project models that path from end to end
and proves what the parts promise each other.

`dafny verify dfyconfig.toml` checks everything. The modules follow the program:

- `RequestQueue` - the queue of libs/ukfusefs/fuse_queue.c, as micro steps of any number of threads.
- `Protocol`, `ProtocolSafety`, `ProtocolResults` - clients, daemon, reply buffers and an arbitrary
  deterministic backend with state, interleaved step by step: linearizability, ownership,
  termination. `Replies` has the reply functions themselves, on a request in memory.
- `Interrupts`, `InterruptInvariant`, `InterruptSteps`, `InterruptResults`, `InterruptEffects` -
  interrupts, reference counts and the two kinds of lock of libs/libfuse/lib/fuse_lowlevel.c: what
  holds in every reachable state, and what each step does there. `RequestLists` relinks the two
  intrusive lists in memory.
- `BufferModel`, `BufferCopy`, `BufferVectors` - libs/libfuse/lib/buffer.c, proved against a
  byte-at-a-time copy, with arbitrary short counts, ends of file and errors. `BufferResults` -
  repeated copies from one source, and the gathering of a reply.
- `OptionText`, `OptionParser`, `OptionIdempotence`, `OptionResults` -
  libs/libfuse/lib/fuse_opt.c: the in-place decoder, the printer and the normalising parser, when
  parsing is stable, when it fails, and when a trailing separator is removed.
- `Bytes`, `Wire` - the wire format: the daemon's reused buffer and libfuse's readers.
- `Dirents`, `Listing` - directory records, the two backends in apps/fuse-perf-test, and repeated
  calls of the driver's `fusefs_listdir`.
- `FileRead` - lazy open, scatter, and reads one behind the other. `EndToEnd` puts a file system
  behind the bytes of the wire format and behind the concurrent protocol.

How the code was read:

- In the concurrent models every wait for a lock or semaphore is a step of its own. The body of a
  critical section is one step together with the release of its lock, which nobody can tell from
  separate steps. Taking a number from `fuse_req_unique` is one step with the start of the call,
  which only makes the interval of a call shorter and so linearizability harder.
- Whether a reply buffer can be allocated is an arbitrary bit of every operation.
- Each handler answers each request once, and a callback run by `fuse_req_interrupt_func` does not
  itself answer the request. There is one mount and one daemon, and the request object of libfuse
  can be allocated.
- A comment at libs/ukfusefs/ukfs-fuse.c:268 calls the cursor of a listing an entry index. The code
  hands back whatever cookie the record carried. apps/fuse-perf-test/hello_ll.c uses byte offsets
  and apps/fuse-perf-test/linux_hello_ll.c uses indices; the driver is proved to list the same with
  both.
- What the code does that a reader might not expect, and the exact condition where a promise fails:
  - The copy leaves the destination cursor behind by the last chunk exactly when that chunk used
    up the source (`BufferVectors.Copy`).
  - A reply gathered by copying is sent whole if and only if it is below 2^31 bytes, since the count
    is kept in an int; of 2^31 exactly the negated error is not even defined in C
    (`BufferResults.SendData`, `BufferResults.CutCounts`).
  - An option is appended behind all of the earlier text if and only if that is below 2^32
    characters, since its length is kept in an unsigned int (`OptionText.AppendsExactly`). Printed
    options come back out of the text, and parsing is stable, if and only if all but the last of
    them fit (`OptionText.HoldsExactly`, `OptionIdempotence.ReparseIsStable`); a longer one is lost
    (`OptionResults.LongOptionIsLost`), and arguments of less than 2^31 characters in all always fit
    (`OptionResults.OrdinaryVectorsAreStable`).
  - Between two descriptors, bytes read into the bounce buffer and then not written are gone from
    a source without a position of its own (`BufferCopy.Machine.FdToFd`).
  - Printing options drops empty ones in front of the others: taking the text apart gives the list
    back if and only if there is one option or the first is not empty
    (`OptionText.PrintedRoundTrip`).
  - The index backend lists the whole directory if and only if every record fits 4096 bytes; at
    the first that does not the directory seems to end (`Listing.IndexListingComplete`).
  - Over the byte-offset backend the driver stays within every reply if and only if every record
    fits 4096 bytes (`Listing.NoOverrunExactly`).
  - A read returns all that the file and the caller's pieces allow if and only if the total is
    below 2^32 or what is left of the file is at most the total cut to 32 bits
    (`FileRead.ReadStoresFile`).
  - A comment at libs/libfuse/lib/fuse_opt.c:388 says that a separator `--` which is the last
    argument is removed. It is if and only if no option of a group was kept, since the stored
    position is not adjusted when `-o` and its value are inserted
    (`OptionResults.SeparatorRemoved`); `-oa --` is an input where it stays
    (`OptionResults.SeparatorStays`). Without a callback that can be read off the arguments: no
    argument in front of the separator may begin with `-o` (`OptionResults.TrailingSeparator`).
  - The daemon copies a name into its buffer unchecked; the message fits if and only if the name has
    at most 8151 bytes (`Wire.MessageFits`).

## Model

| member | source | states |
|---|---|---|
| RequestQueue.SharedQueue.Push | libs/ukfusefs/fuse_queue.c:22-42 | whoever else is in the middle of push or pop, the request becomes the last of the list with one unit of the semaphore for it, the queue's invariant holds again, and the statements are a run of the transition system |
| RequestQueue.SharedQueue.Pop | libs/ukfusefs/fuse_queue.c:44-68 | a unit of the semaphore guarantees that the list is not empty; the oldest request is handed out, the invariant holds again, and the statements are a run of the transition system |
| RequestQueue.StepKeepsInv | libs/ukfusefs/fuse_queue.c:22-68 | every step of every thread keeps: length = semaphore count + producers between insert and up + consumers between down and remove, and mutual exclusion |
| RequestQueue.RunKeepsInv | libs/ukfusefs/fuse_queue.c:22-68 | the same over whole runs, threads entering and leaving included |
| RequestQueue.QueueSafety | libs/ukfusefs/fuse_queue.c:31-41 | in every reachable state the accounting equation holds, the non-NULL assertion of pop has not failed and cannot fail next, and requests leave in the order they entered |
| RequestQueue.NeverStuck | libs/ukfusefs/fuse_queue.c:50-62 | if no thread can move, the semaphore counts exactly the list, the lock is free, and nobody waits while the list is not empty |
| ProtocolResults.StepKeepsInv | libs/ukfusefs/fuse_daemon.c:112-148 | every action of every client and the daemon keeps the protocol's invariant |
| ProtocolResults.Linearizability | libs/ukfusefs/ukfs-fuse.c:84-97 | in every reachable state the history of calls and returns is explained by one sequential run, which leads through states of the file system, each handler run on the state the one before left, and respects real time |
| ProtocolResults.HandledInSequence | libs/ukfusefs/fuse_daemon.c:112-148 | the requests handled so far went through the file system's states one after the other, from its first to its present one; a handler's failure e is the outcome -e, its bytes are the outcome's bytes or -12 without memory, and an unknown opcode is -38 and changes nothing |
| ProtocolResults.ReturnedOutcome | libs/ukfusefs/ukfs-fuse.c:93-114 | every return carries what the handler answered to that call's own input in some state of the file system, a failure e as -e |
| ProtocolResults.HandledInInsertionOrder | libs/ukfusefs/fuse_daemon.c:112-148 | requests are handled in the order of insertion, each at most once; no call returns twice or unhandled |
| ProtocolResults.RealTimeOrder | libs/ukfusefs/ukfs-fuse.c:93-97 | a call that returned before another was made stands before it in the sequential run |
| ProtocolResults.Ownership | libs/ukfusefs/ukfs-fuse.c:96-114 | the daemon never touches a returned client's request, frees hit only allocated buffers, every buffer belongs to exactly one request in flight, an error carries none, and none is left when all have returned |
| ProtocolResults.NoDeadlock | libs/ukfusefs/fuse_queue.c:44-68 | while a call is in flight some thread can move |
| ProtocolResults.StepUsesWork | libs/ukfusefs/fuse_daemon.c:112-148 | every step other than a new call strictly uses up a finite amount of work |
| ProtocolResults.EveryCallReturns | libs/ukfusefs/ukfs-fuse.c:93-97 | a run without new calls has bounded length, and when nothing more can move every call has returned |
| Replies.UkfsRequest.ReplyErr | libs/libfuse/lib/fuse_lowlevel.c:409-420 | the error field holds the negated error, there is no buffer, and the client is woken once |
| Replies.UkfsRequest.ReplyEntry | libs/libfuse/lib/fuse_lowlevel.c:514-532 | the error field is -2 (ENOENT) for a negative entry over an old protocol, with no buffer; else the buffer holds the entry's bytes, or the error is -ENOMEM |
| Replies.UkfsRequest.ReplyStruct | libs/libfuse/lib/fuse_lowlevel.c:550-566 | the client finds a fresh copy of the structure, or -ENOMEM; the stale length is never used |
| Replies.UkfsRequest.ReplyOpen | libs/libfuse/lib/fuse_lowlevel.c:492-617 | a fresh buffer holds the sixteen bytes of handle, flags and backing file, or the error is -ENOMEM |
| Replies.OpenOutFields | libs/libfuse/lib/fuse_lowlevel.c:492-512 | in these bytes the handle stands at 0, the flags at 8 and the backing file, if there is one, at 12 |
| Replies.FlagBits | libs/libfuse/lib/fuse_lowlevel.c:492-512 | every flag is the bit that fuse_kernel.h gives it, set if and only if its field is |
| Replies.UkfsRequest.ReplyBuf | libs/libfuse/lib/fuse_lowlevel.c:657-672 | the client finds exactly the bytes; with none, a failed allocation is no error |
| InterruptResults.NoInterruptLost | libs/libfuse/lib/fuse_lowlevel.c:2272-2334 | pending interrupts have distinct targets, none active; every interrupt ever received is being searched for, pending, has marked a request with its target's number, was bounced by a request with another number, or was absorbed by an equal one |
| InterruptEffects.DispatchTakesInterrupt | libs/libfuse/lib/fuse_lowlevel.c:2340-2352 | in every reachable state: dispatching a request that a pending interrupt asks for links and marks the request, unlinks and destroys that interrupt, and touches no other |
| InterruptEffects.DispatchBounces | libs/libfuse/lib/fuse_lowlevel.c:2353-2363 | when none asks for it, the request is linked and unmarked, and exactly the oldest pending interrupt, if any, is taken out to be answered |
| InterruptEffects.SearchFinds | libs/libfuse/lib/fuse_lowlevel.c:2276-2283 | an interrupt takes a reference to the first active request with its target's number and changes nothing else |
| InterruptEffects.SearchMarks | libs/libfuse/lib/fuse_lowlevel.c:2284-2290 | that request is marked, and the callback it has at that moment is what the thread calls next |
| InterruptEffects.SearchEnds | libs/libfuse/lib/fuse_lowlevel.c:2295-2301 | the reference is given back, the request is destroyed if and only if it was the last, and the interrupt is destroyed |
| InterruptEffects.SearchAbsorbs | libs/libfuse/lib/fuse_lowlevel.c:2304-2331 | with no such request, but an equal interrupt pending, the interrupt is destroyed and the lists stay |
| InterruptEffects.SearchPends | libs/libfuse/lib/fuse_lowlevel.c:2309-2333 | with neither, it waits at the end of the list |
| InterruptEffects.RegisterStores | libs/libfuse/lib/fuse_lowlevel.c:3405-3416 | registering stores the callback, or removes it |
| InterruptEffects.RegisterCalls | libs/libfuse/lib/fuse_lowlevel.c:3405-3416 | the callback is called at once if and only if the request is marked already |
| InterruptEffects.FreeUnlinks | libs/libfuse/lib/fuse_lowlevel.c:183-208 | a request that is freed is in no list afterwards, the others in their order, without channel and callback, and is destroyed next if and only if nobody else refers to it |
| InterruptEffects.NewIsUnmarked | libs/libfuse/lib/fuse_lowlevel.c:3726-3734 | when its dispatch begins, a request is neither marked nor linked |
| InterruptResults.DueCallbackRuns | libs/libfuse/lib/fuse_lowlevel.c:2285-2293 | once a request is both marked and given a callback, the callback has run or a thread stands right before the call needing no lock |
| InterruptResults.MarkedAndRegisteredIsDue | libs/libfuse/lib/fuse_lowlevel.c:3405-3416 | whenever a request is marked and has a callback, in whichever order that happened, the callback counts as due |
| InterruptResults.NoDeadlock | libs/libfuse/lib/fuse_lowlevel.c:2276-2301 | while any thread is inside, some thread can step; the holder of the session lock always can |
| InterruptResults.StepsFinish | libs/libfuse/lib/fuse_lowlevel.c:2276-2301 | every step brings its thread strictly closer to the end and moves no other |
| InterruptResults.EverythingFinishes | libs/libfuse/lib/fuse_lowlevel.c:2272-2334 | under every schedule, once nothing new arrives and the handlers call nothing, at most as many steps are left as the ranks of all threads add up to; when nobody can step, every thread is outside, every due callback has run, and what is allocated is exactly what is linked |
| InterruptResults.ReferenceCounts | libs/libfuse/lib/fuse_lowlevel.c:183-208 | a request's count is one while unanswered plus one per search holding it, requests refused by a check included; nothing is destroyed while linked, locked, attached or gone; when all is quiet, allocated is exactly linked |
| InterruptSteps.StepKeepsCore | libs/libfuse/lib/fuse_lowlevel.c:2272-2363 | every step of every thread keeps threads, requests, locks and lists in agreement |
| InterruptResults.StepKeepsInv | libs/libfuse/lib/fuse_lowlevel.c:3726-3734 | every step keeps the pending interrupts apart, the due callbacks accounted for and the fates true |
| RequestLists.ListInit | libs/libfuse/lib/fuse_lowlevel.c:149-153 | the node is linked to itself |
| RequestLists.ListDel | libs/libfuse/lib/fuse_lowlevel.c:155-161 | the ring becomes the ring without the element at that position, and a separate ring is untouched |
| RequestLists.ListAdd | libs/libfuse/lib/fuse_lowlevel.c:163-170 | the ring becomes the ring with the node at its end |
| RequestLists.FuseSession.FindActive | libs/libfuse/lib/fuse_lowlevel.c:2276-2277 | the walk finds the first active request with this number, or NULL if there is none |
| RequestLists.FuseSession.FindPending | libs/libfuse/lib/fuse_lowlevel.c:2304-2308 | the walk finds the first pending interrupt with this target, or NULL if there is none |
| RequestLists.FuseSession.CheckInterrupt | libs/libfuse/lib/fuse_lowlevel.c:2340-2363 | a matching interrupt is unlinked and the request marked; otherwise the oldest is unlinked, linked to itself and handed back |
| RequestLists.FuseSession.Dispatch | libs/libfuse/lib/fuse_lowlevel.c:3726-3734 | the two lists after a dispatch are those of the abstract step: request at the end of the active list, at most one interrupt gone |
| RequestLists.FuseSession.Pend | libs/libfuse/lib/fuse_lowlevel.c:2331-2333 | an interrupt without a match joins the end of the pending list |
| RequestLists.FuseSession.Retire | libs/libfuse/lib/fuse_lowlevel.c:196-205 | exactly the answered request leaves the active list |
| RequestLists.FuseSession.Discard | libs/libfuse/lib/fuse_lowlevel.c:196-205 | freeing a bounced interrupt or a refused request, each linked to itself, leaves both lists as they are |
| RequestLists.UnlinkIsDrop | libs/libfuse/lib/fuse_lowlevel.c:155-161 | on a list without repeats, removing by value and by position are the same |
| BufferCopy.Machine.BufWrite | libs/libfuse/lib/buffer.c:42-74 | with any counts and errors of write: negative only if the first write failed, else exactly that prefix of the bytes is in the file; how much that is follows from the outcomes, with and without FUSE_BUF_FD_RETRY |
| BufferCopy.Machine.BufRead | libs/libfuse/lib/buffer.c:76-108 | with any counts and errors of read: negative only if the first read failed, else exactly those bytes of the file are in memory; how much that is follows from the outcomes and the file's end, with and without FUSE_BUF_FD_RETRY |
| BufferCopy.RetryMovesAll | libs/libfuse/lib/buffer.c:49-71 | with FUSE_BUF_FD_RETRY everything there is gets moved, however short the counts, unless a call fails or moves nothing |
| BufferCopy.OneCallWithoutRetry | libs/libfuse/lib/buffer.c:66-67 | without it the first count is the result |
| BufferCopy.WriteMeans | libs/libfuse/lib/buffer.c:50-56 | a write puts the bytes at the buffer's position, or at the cursor, which then moves behind them; gaps are zeros, all else is kept |
| BufferCopy.ReadMeans | libs/libfuse/lib/buffer.c:84-90 | a read gives the bytes at the buffer's position, or at the cursor, which then moves behind them; file and other memory are kept |
| BufferCopy.Machine.FdToFd | libs/libfuse/lib/buffer.c:110-158 | through the 4096-byte bounce buffer the returned count is what was delivered, in order, from the source range; what else was read is counted as lost; with FUSE_BUF_FD_RETRY on both sides and no call that fails or moves nothing, all that is left of the source is moved |
| BufferModel.BlockIsCopy | libs/libfuse/lib/buffer.c:227-255 | moving a block between memory, positioned files and streams equals copying its cells one byte at a time |
| BufferModel.WriteBlockContents | libs/libfuse/lib/buffer.c:49-60 | a block written to a file stands at its position, the rest is as before, and a gap reads as zeros |
| BufferModel.CopyBytesConcat | libs/libfuse/lib/buffer.c:293-321 | copying two stretches one after the other is copying them at once |
| BufferModel.MemoryEffect | libs/libfuse/lib/buffer.c:227-255 | on distinct memory cells the copy puts source byte k at destination k for every k and changes nothing else |
| BufferModel.RestDistinct | libs/libfuse/lib/buffer.c:257-282 | what lies in front of a cursor over buffers that do not overlap has no cell twice |
| BufferVectors.BufVec.Size | libs/libfuse/lib/buffer.c:22-35 | the sum of the sizes, saturating at SIZE_MAX |
| BufferVectors.BufVec.Advance | libs/libfuse/lib/buffer.c:265-282 | what is in front of the cursor shrinks by exactly len bytes; false exactly when the vector is used up |
| BufferVectors.CopyOne | libs/libfuse/lib/buffer.c:227-255 | the result counts the bytes delivered, whichever of the four kinds of copy it is |
| BufferVectors.Copy | libs/libfuse/lib/buffer.c:284-324 | negative only if nothing was copied, else the exact count as ssize_t; between vectors in memory whose destination buffers overlap neither each other nor the source, for any cursors, the next n destination addresses hold what the next n source addresses held and nothing else changes; in general the effect is the cell-by-cell copy of the counted prefixes; the new place of both cursors; in memory, and over descriptors when nothing holds the copy up, the count is the smaller of what both have left; bytes lost are those of the source's cell where the copy stopped |
| BufferResults.PourInTurn | libs/libfuse/lib/buffer.c:284-324 | repeated copies from one source into many destinations: the counts add up to the advance of the source, and the whole is one copy of the next source bytes to what the destinations took, laid end to end; in memory they are filled one after the other until the source runs out |
| BufferResults.SendData | libs/libfuse/lib/fuse_lowlevel.c:674-715 | the shortcut sends its whole buffer; the copy path sends a prefix of the bytes drawn from the vector, as long as the 32-bit int says, or fails; a vector in memory is sent as its flattened rest if and only if that is below 2^31 bytes; the length field counts header and payload |
| BufferResults.CutCounts | libs/libfuse/lib/fuse_lowlevel.c:682-706 | where that fails: the count of three gigabytes in two buffers comes out negative, that of four gigabytes zero |
| OptionText.AddOptCommon | libs/libfuse/lib/fuse_opt.c:115-137 | the text, cut to a length that an unsigned int holds, grows by a comma and the escaped option; the size computed beforehand bounds every write |
| OptionText.AppendsExactly | libs/libfuse/lib/fuse_opt.c:115-137 | the option stands behind all of the text if and only if that is below 2^32 characters |
| OptionText.OctalDecodes | libs/libfuse/lib/fuse_opt.c:313-321 | a backslash and the three octal digits of any byte decode to that byte |
| OptionText.BackslashDecodes | libs/libfuse/lib/fuse_opt.c:322-324 | a backslash before anything else decodes to that character |
| OptionText.PlainDecodes | libs/libfuse/lib/fuse_opt.c:303-327 | a comma ends an option, a backslash at the end is itself, and any other character is part of the option |
| OptionText.EscapeAtMostDoubles | libs/libfuse/lib/fuse_opt.c:117-118 | escaping at most doubles the length |
| OptionText.PartsOfJoined | libs/libfuse/lib/fuse_opt.c:294-332 | taking a joined group apart gives back the list, escaped and empty options included |
| OptionText.PrintedIsJoined | libs/libfuse/lib/fuse_opt.c:115-137 | printing options one by one is joining what is left without leading empty ones |
| OptionText.PrintedRoundTrip | libs/libfuse/lib/fuse_opt.c:115-137 | printing and taking apart are inverse exactly on single options and lists not starting with an empty one |
| OptionText.CutExactly | libs/libfuse/lib/fuse_opt.c:115-137 | options added one by one give the full text if and only if all but the last fit an unsigned int, and a shorter one otherwise |
| OptionText.HoldsExactly | libs/libfuse/lib/fuse_opt.c:115-137 | under the same condition, and only then, taking the text apart gives the options back |
| OptionParser.OptContext.ProcessGroup | libs/libfuse/lib/fuse_opt.c:294-332 | decoding in place delivers exactly the parts of the group in order, failing where the callback does; the closing NUL and everything behind it stay as they were |
| OptionParser.DecodeOne | libs/libfuse/lib/fuse_opt.c:311-327 | one character, escape or octal code is taken from what is left to read; the write position moves one on and the read position at least one, and what was not read yet is intact |
| OptionParser.OptContext.ProcessOne | libs/libfuse/lib/fuse_opt.c:348-369 | one argument, or two for a separate -o, taken as the parser function does |
| OptionParser.OptContext.InsertArg | libs/libfuse/lib/fuse_opt.c:79-93 | append and shift is insertion at the position |
| OptionParser.OptContext.OptParse | libs/libfuse/lib/fuse_opt.c:371-396 | the loop, the two insertions and the removal of a trailing separator give the result of the parse function, in memory as in the specification; it fails exactly when that does |
| OptionParser.FuseOptParse | libs/libfuse/lib/fuse_opt.c:398-423 | on success the vector is the parse's output, on failure it is unchanged |
| OptionResults.ParseFailsExactly | libs/libfuse/lib/fuse_opt.c:348-379 | a parse fails if and only if a last -o lacks its value or the callback answers -1 to something it is given; otherwise -1 never came up |
| OptionResults.CallbackDecides | libs/libfuse/lib/fuse_opt.c:154-169 | -1 stops, 0 drops, anything else keeps the argument, in the vector or in the option text |
| OptionResults.KeysTold | libs/libfuse/lib/fuse_opt.c:348-369 | without a separator the callback is told of an option exactly for options of groups and arguments that begin with a dash |
| OptionResults.BehindSeparator | libs/libfuse/lib/fuse_opt.c:348-352 | behind the separator every argument is handed on as it is, none as an option |
| OptionResults.SeparatorRemoved | libs/libfuse/lib/fuse_opt.c:381-393 | for every callback: a separator that is the last argument collected is removed if and only if no option of a group was kept; otherwise it stays, behind the inserted -o and its value |
| OptionResults.SeparatorStays | libs/libfuse/lib/fuse_opt.c:381-393 | one input where the separator stays |
| OptionResults.TrailingSeparator | libs/libfuse/lib/fuse_opt.c:371-396 | without callback: a separator that is the last argument is removed if and only if no argument in front of it begins with -o |
| OptionIdempotence.ReparseIsStable | libs/libfuse/lib/fuse_opt.c:371-424 | parsing successful output succeeds, returns the same vector, and delivers what was kept the first time in order, leading empty options aside, if and only if the text of all kept options but the last fits an unsigned int |
| OptionIdempotence.ThirdParseEqualsSecond | libs/libfuse/lib/fuse_opt.c:398-424 | if so, vector and deliveries are a fixed point from the second parse on |
| OptionResults.OrdinaryVectorsAreStable | libs/libfuse/lib/fuse_opt.c:371-424 | whatever the callback does, that is so for arguments of less than 2^31 characters in all |
| OptionResults.LongOptionIsLost | libs/libfuse/lib/fuse_opt.c:115-137 | one input where an option kept is not in the output |
| OptionIdempotence.ParseGood | libs/libfuse/lib/fuse_opt.c:348-369 | through the whole loop the output vector holds exactly the arguments kept so far, each placed so that it would be read the same way again |
| Bytes.DecodeEncode | libs/libfuse/include/fuse/fuse_kernel.h:1033-1043 | a little-endian field reads back as the value cut to its width |
| Bytes.EncodeDecode | libs/libfuse/include/fuse/fuse_kernel.h:1033-1043 | bytes are the encoding of the number read from them, which is below the range of the field |
| Bytes.LittleEndian | libs/libfuse/include/fuse/fuse_kernel.h:1033-1043 | byte k of a field is the k-th digit of the number to the base 256 |
| Bytes.Store | libs/ukfusefs/fuse_daemon.c:119-124 | storing a field in place changes its bytes and no others |
| Wire.Daemon.Fill | libs/ukfusefs/fuse_daemon.c:25-76 | node id and payload are appended at the length field, which grows by the payload; other header fields and the bytes behind are kept |
| Wire.MessageCarries | libs/ukfusefs/fuse_daemon.c:112-148 | header and payload written over any stale buffer carry the request |
| Wire.WireFormat | libs/ukfusefs/fuse_daemon.c:25-148 | every field of the header, the opcode and the fields of each payload stand where the kernel's structures have them, with the client's values, and the bytes behind are the stale ones |
| Wire.MessageFits | libs/ukfusefs/fuse_daemon.c:25-33 | a message fits the 8192 bytes of the buffer if and only if its name has at most 8151 bytes |
| Wire.Daemon.Step | libs/ukfusefs/fuse_daemon.c:112-148 | over any stale buffer, the bytes of the buffer become that message, and the dispatch is what the client meant; an unknown opcode is not sent on |
| Wire.RoundTrip | libs/libfuse/lib/fuse_lowlevel.c:3705-3764 | whatever lies behind the message and whatever the session's permission settings, no check refuses it and the handler gets exactly the client's values |
| Wire.HandlerGets | libs/libfuse/lib/fuse_lowlevel.c:3705-3764 | opcode by opcode: the handler is called with exactly these values, or without one the answer is ENOSYS or the default OPEN |
| Wire.ChecksRefuse | libs/libfuse/lib/fuse_lowlevel.c:3709-3725 | which messages are refused before any handler, and with which error |
| Wire.ReadInFields | libs/libfuse/lib/fuse_lowlevel.c:1757-1775 | the readers of READ and READDIR find handle, offset and size where the driver put them, and zeros elsewhere |
| Wire.CStringEnds | libs/libfuse/lib/fuse_lowlevel.c:1319-1330 | the name of a LOOKUP ends where the driver ended it, whatever follows |
| Wire.OffsetKept | libs/libfuse/lib/fuse_lowlevel.c:1757-1775 | an offset reaches the handler unchanged if and only if it is below 2^63 |
| Dirents.AddDirentry | libs/libfuse/lib/fuse_lowlevel.c:364-389 | the sizing pass returns what the filling pass writes; a record too large for the room changes nothing |
| Dirents.RecordSize | libs/libfuse/lib/fuse_lowlevel.c:364-389 | a record takes the next multiple of eight behind 24 bytes and the name, which stands there, padded with zeros |
| Dirents.FixedFields | libs/libfuse/lib/fuse_lowlevel.c:377-383 | inode, cookie, length of the name and type stand at 0, 8, 16 and 20 |
| Dirents.TypeOfMode | libs/libfuse/lib/fuse_lowlevel.c:377-383 | the type in a record is that of the mode, whatever its other bits are |
| Dirents.CutRecordDecodes | libs/ukfusefs/ukfs-fuse.c:282-299 | a reply starting with a record, cut at k bytes, decodes if and only if the name is still in it, and then to the packed entry |
| Dirents.DirBuf.Add | apps/fuse-perf-test/hello_ll.c:95-106 | one more record at the end of the buffer, its cookie the new end |
| Dirents.RecordAtBoundary | apps/fuse-perf-test/hello_ll.c:95-106 | from every record boundary on, the packed buffer begins with that record and continues at the next boundary |
| Dirents.BoundariesGrow | apps/fuse-perf-test/hello_ll.c:104-105 | the cookies are strictly increasing |
| Dirents.HelloReaddir | apps/fuse-perf-test/hello_ll.c:120-138 | the packing loop and reply_buf_limited answer with the slice of the packed directory |
| Dirents.LinuxReaddir | apps/fuse-perf-test/linux_hello_ll.c:104-140 | the loop over its local buffer answers with as many whole records as fit, from the index on |
| Listing.ListDir | libs/ukfusefs/ukfs-fuse.c:257-304 | every outcome of the driver: errors and end of directory change nothing, a record that does not fit the caller is -EINVAL, and otherwise the caller's record and the cursor are exactly set |
| Listing.ByteStep | apps/fuse-perf-test/hello_ll.c:110-118 | the driver's view of one call at a record boundary, in all five cases |
| Listing.IndexStep | apps/fuse-perf-test/linux_hello_ll.c:125-137 | the driver's view of one call at an index, in all four cases |
| Listing.RunRefines | libs/ukfusefs/ukfs-fuse.c:257-304 | a backend that refines the reference enumeration in one call refines it over every sequence of calls |
| Listing.CookieIndependence | libs/ukfusefs/ukfs-fuse.c:268-303 | over both backends, any caller's buffer and any pattern of failed allocations, repeated calls are the reference enumeration |
| Listing.ListingIsComplete | libs/ukfusefs/ukfs-fuse.c:257-304 | a listing from cursor 0 yields every entry exactly once, in order, with its name and inode, and then 0 |
| Listing.IndexListingComplete | apps/fuse-perf-test/linux_hello_ll.c:125-139 | the index backend lists exactly the entries before the first record over 4096 bytes, hence everything if and only if all fit |
| Listing.NoOverrunExactly | libs/ukfusefs/ukfs-fuse.c:282-299 | over the byte-offset backend the driver never reads past a reply if and only if all records fit 4096 bytes |
| FileRead.Scatter | libs/ukfusefs/ukfs-fuse.c:102-112 | the loop stores the reply piece by piece and returns the smaller of both totals |
| FileRead.ScatterMeaning | libs/ukfusefs/ukfs-fuse.c:102-112 | on pieces that do not overlap, byte k goes to the k-th address of the pieces laid end to end, and nothing else changes |
| FileRead.FusefsFile.DoOpen | libs/ukfusefs/ukfs-fuse.c:40-63 | error, missing reply or new handle, as the opening function says |
| FileRead.FusefsFile.Read | libs/ukfusefs/ukfs-fuse.c:65-115 | result, handle, requests sent and memory after a read, in every case |
| FileRead.ReadStops | libs/ukfusefs/ukfs-fuse.c:40-115 | how a read ends: the error of a failed OPEN or READ is its result, an OPEN without reply is -5 (EIO), no bytes wanted or none in the reply is 0; no request is sent that is not needed |
| FileRead.HandleTravels | libs/libfuse/lib/fuse_lowlevel.c:598-617 | the handle put into the reply of OPEN is the one the driver takes out |
| FileRead.HandleDiscipline | libs/ukfusefs/ukfs-fuse.c:70-74 | for any backend, every READ carries the handle of the last successful OPEN, and after one with a handle other than 2^64-1 no other OPEN is sent |
| FileRead.ReadStoresFile | libs/ukfusefs/ukfs-fuse.c:76-114 | a read stores exactly the file's bytes from the offset on, split across the pieces; it is short exactly when the total cut to 32 bits makes it so |
| FileRead.ReadsRebuildFile | libs/ukfusefs/ukfs-fuse.c:65-115 | reads one behind the other deliver the file without gap or repeat, whichever of them fail for lack of memory, as far as the others have room; none fails while memory lasts |
| EndToEnd.OverWireAnswers | libs/ukfusefs/fuse_daemon.c:112-148 | writing a request over any stale buffer, reading the bytes back, checking and dispatching gives, opcode by opcode, the answer of that handler to the client's own values, as slice, handle or error number |
| EndToEnd.ServeOne | libs/ukfusefs/fuse_daemon.c:112-148 | the daemon's round in memory gives that answer, and leaves in the buffer the message just written |
| EndToEnd.EveryClientIsAnswered | libs/ukfusefs/ukfs-fuse.c:93-97 | in every run with any number of clients, all passing through the bytes of one buffer, what a call returns is the right answer, opcode by opcode, to that call's own values |
| EndToEnd.ListingElsewhere | libs/ukfusefs/ukfs-fuse.c:257-281 | listing anything but the root, in any such run, the driver reports -20 (ENOTDIR) |
| EndToEnd.ListingEndToEnd | apps/fuse-perf-test/hello_ll.c:120-138 | through the bytes of the daemon's buffer, whatever other requests left in it before every call, through dispatch and either directory scheme, a listing is the reference enumeration |
| EndToEnd.ReadingEndToEnd | apps/fuse-perf-test/hello_ll.c:151-177 | through the same bytes and dispatch, and with any pattern of failed reply allocations, a file opened and read piece by piece is rebuilt from its beginning, whole once the reads that did not fail have room for it |

## Left out

- Splice, vmsplice, pipes, io_uring and CUSE: compiled out or stubs.
- Capability negotiation and reading from the FUSE device: never reached, the session starts out initialised and the daemon bypasses the device.
- The other opcode handlers (mknod, rename, setattr, locks, ioctl, poll and so on): one-line forwarding that the driver never triggers.
- Mounting, daemonizing, signals, logging, command-line help, stub files, benchmarks and test programs: foreign calls and constants.
- Unikraft's scheduler, allocator and VFS: taken by contract. Its record length is an arbitrary function that leaves room for the name and a NUL, and the layout of its directory record is fields plus room for the name.
- Option templates, `sscanf` parameters and failing allocations in fuse_opt.c: the callback is an arbitrary function of argument and key, and memory is there.
- Timeouts and floating point: passed through, no promise about them visible.
- Failing allocation of libfuse's own request object, and a second mount that re-initialises the queue: the code never wakes the client then.
- The path walk of fusefs_lookup and the field copy of fusefs_getstat: as clients they are those of the protocol; what they do with the reply is easy.
- BufferVectors.Copy: counts and cursors are unconditional, but the contents are stated for source and destination that do not meet (disjoint memory, different descriptors), since memcpy between overlapping buffers is not defined; among destination buffers that overlap each other the later copy wins, which only the cell-by-cell copy states.
- RequestQueue.SharedQueue.Push: is push by a thread that waits for nothing, with the other threads standing still; the interleavings are those of RequestQueue.RunKeepsInv. The same holds for Pop.
- Dirents.LinuxReaddir: asks for at most 4096 bytes, as the driver does, at a cookie and with a directory that an int can count; a larger request would run past the backend's local buffer, and C converts a larger cookie to a negative index.
- OptionParser.FuseOptParse: the callback is a function of argument and key; one that edits the output vector or remembers earlier calls is not part of this model.
- Wire.Daemon.Step: a name has at most 8151 bytes; beyond that C writes outside the daemon's buffer, and Wire.Daemon.Fill says nothing about it either.
- Listing.ListDir: a reply does not end inside the name of its record; beyond that C reads outside the reply, and when that can happen is Listing.NoOverrunExactly.
- FileRead.ReadsRebuildFile: is about totals below 2^32 and files below 2^63 bytes, beyond which the request cannot express the read.
- EndToEnd.EveryClientIsAnswered: about sessions past FUSE_INIT, as the driver's is, and requests whose name fits the daemon's buffer and whose values fit their fields.
