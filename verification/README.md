# Verified model of mapget

This project models four cores of mapget and proves what they promise: the scheduler that
shares tile jobs among workers, the zserio bit codec with its packed arrays, the tile stream
with its string pools and cache, and the feature layer's hash index and node copy.
`dafny verify dfyconfig.toml` checks all of it.

## What is modelled

**The tile scheduler.** `Scheduler.dfy` says what `nextJob` does to the service's state: a walk
over the queue that serves cached tiles, passes over tiles in progress, and hands out the first
other one, repeated while cached tiles were served. `SchedulerRuns.dfy` adds the other steps
(add, fetch, cache put, completion, failure, abort, eviction) and the invariant that all of them
keep; `SchedulerProperties.dfy` proves conservation, single fetch, finality, fairness, completeness
and deadlock freedom over every run, `SchedulerJobs.dfy` what each step does, field by field, and that
jobs are only ever about tiles that were asked for, and `SchedulerProgress.dfy` that a run can only get so much
done, after which all that is served is a success. `Controller.dfy` is the imperative service: request and
controller objects whose methods update their fields in place, each proved to be one step. The
state keeps the log of calls of data sources and callbacks, and the jobs lost to exceptions, so
that the results say what a failure costs: its key stays in progress, which blocks every request
that gets to that key, for good.

**The codec.** `Bits.dfy` has shifts, masks and byte buffers as bit sequences. `Wire.dfy`,
`VarNum.dfy` and `Fields.dfy` say what bits a number, a byte string or a bit buffer is written
as, and what a reader with only a position makes of bits. `BitWriter.dfy` overwrites a byte array
in place; `BitReader.dfy` reads through a 64-bit cache; both are proved to be what `Fields.dfy`
says. `Codec.dfy` puts them together: any sequence of fields through any buffer, and any sequence
of reads and position changes against a reader without a cache. One result is negative. A read
that fails at the end has already counted the cached bits as read, but leaves them in the cache,
so that a caller that catches the exception and reads on gets bits from before. The exact
condition is one that the caller can compute: it does not happen at the end of the buffer, nor a
multiple of 64 bits behind the byte of the last position change (`Codec.AfterFailure`). From
there on `Codec.AgreesIff` and `Codec.StepsInStep` say of every further command whether the
reader can be told from one without a cache, and when it cannot any more. `Delta.dfy` is the
packing context, `Layouts.dfy` the layout of elements with alignment gaps, and `Arrays.dfy`
arrays of all element types, plain and packed, with their sizes, offsets and round trips. Sizes
are 32 bits wide: they are proved modulo 2^32, for arrays of any size, with what that means for
offsets, for buffers of the calculated size, and for the decision to pack, which can then be
wrong (`Delta.PackingCanCost`).

**Stream and cache.** `Framing.dfy` is the version-type-length-value reader and writer, for any
handler of messages. `PoolSync.dfy` is the writer that sends the strings a client does not have,
and the client's pools; `CacheStore.dfy` the cache on top of it, with what is stored and what a
restart loses. String pools are append-only sequences of strings with contiguous ids, and a new
one starts with the same strings on both sides; a layer body is taken to be decoded from exactly
its own bytes.

**The feature layer.** `FeatureIndex.dfy` is the hash index that is sorted when it is searched,
for any hash function. `Clone.dfy` is the memoised copy of objects, arrays, attribute layers and
values between layers with different string pools. Names go through a pool in both. mapget's pool
is documented as a case-insensitive dictionary (libs/model/include/mapget/model/stringpool.h:8-15);
simfil, which implements it, is not part of this model. `StringPools.dfy` takes from that: there is
a function `fold`, of which nothing is assumed, such that strings with one fold share an id; the
id keeps the first spelling it was given; ids are never taken back. So a name can come back in
another case than it was given. Both files say what that costs, with conditions that a caller can
compute before the call: a copy is exact if and only if the names below the original are kept
(`Clone.ExactNames`), lookups of distinct ids are scans if and only if the ids were kept (`FeatureIndex.ScanIff`),
and a feature keeps its id if and only if its type is kept and no mandatory part is at or behind a
respelled key (`FeatureIndex.KeysMatter`, for keys in the order of the composition).

Exceptions are results: `Failed` for reads, a flag for writes and refusals, `Raised` for the
stream. Machine widths appear where code depends on them: 8-bit skips and masks, 32-bit sizes and
counters, 64-bit words, sums and casts of the delta context. A type whose comparison or layout does
not matter (a layer's content, a data source's answer) is reduced to what the code looks at.

Differences between code and documentation, where the model follows the code:

- The documentation of the stream (libs/model/include/mapget/model/stream.h:15-23) gives every
  message a value of the stated length. The reader takes it exactly for the kinds that it knows
  a value of (`Framing.ValueTaken`); for end-of-stream and unknown kinds it leaves the value in
  the buffer and reads it as the next messages (`Framing.AnyMessageBack`). The writer only sends
  empty ones of those.
- `Service::abort` is documented to mark a request as done in any case
  (libs/service/include/mapget/service/service.h:164-168). A request whose last tile has been
  handed out is no longer in the list, and aborting it does nothing
  (`SchedulerProperties.AbortEffect`).
- `TileFeatureLayer::find` is documented to access a feature through its id
  (libs/model/include/mapget/model/featurelayer.h:217-220). It compares what it is asked for with
  names that have gone through the case-insensitive pool, so that a feature can be added and not
  be found (`FeatureIndex.PointIsLost`).

## Model

| member | source | states |
|---|---|---|
| `Scheduler.ScanFalls` | libs/service/src/service.cpp:136-190 | A walk that hands out no job leaves the queue as it is, and one that served a cached tile strictly lowers the number of tiles not yet handed out: `nextJob` terminates. |
| `Scheduler.ScanKeepsWorker` | libs/service/src/service.cpp:140-188 | A walk changes its worker at most by giving it a job. |
| `SchedulerRuns.NextJobKeeps` | libs/service/src/service.cpp:128-196 | `nextJob` keeps the invariant: requests balanced, keys exclusive, and every request left in the list has tiles left. |
| `SchedulerRuns.DispatchKeeps` | libs/service/src/service.cpp:151-186 | Handing out a tile keeps the inner invariant: the key enters the in-progress set, the worker holds it alone, and the request's balance and place in the list are kept. |
| `SchedulerRuns.ServeKeeps` | libs/service/src/service.cpp:158-167 | Serving a cached tile keeps the inner invariant: the tile is delivered as it is handed out. |
| `SchedulerRuns.CompleteKeeps` | libs/service/src/service.cpp:262-269 | Erasing the key and delivering the result keeps the invariant: what the worker held is now delivered. |
| `SchedulerRuns.AddKeeps` | libs/service/src/service.cpp:404-419 | Adding a request keeps the invariant; an empty one is only told that it is done, once. |
| `SchedulerRuns.AbortKeeps` | libs/service/src/service.cpp:421-430 | Aborting keeps the invariant. |
| `SchedulerRuns.FailKeeps` | libs/service/src/service.cpp:271-275 | An exception keeps the invariant with the job counted as lost: its key stays in progress and its tile is never delivered. |
| `SchedulerRuns.StepKeeps` | libs/service/src/service.cpp:128-279 | Every step, in any state that fits, keeps the invariant; so it holds in every state of every run. |
| `SchedulerProperties.Conservation` | libs/service/src/service.cpp:40-60 | In every reachable state the tiles handed out are, as a multiset, those delivered, those workers hold and those lost; `nextTileIndex_` is the sum of their counts; and a request is Success exactly when everything it asked for has been delivered, each entry once. |
| `SchedulerProperties.NothingToDo` | libs/service/src/service.cpp:136-195 | If `nextJob` returns nothing, every request still queued that the source serves has its next tile in progress and not in the cache, and worker, key set and losses are unchanged. |
| `SchedulerProperties.FoundIsNew` | libs/service/src/service.cpp:158-180 | A job is for a queued request, its key was not cached, not in progress and held by no worker. |
| `SchedulerProperties.DoneIsFinal` | libs/service/src/service.cpp:40-78 | Over any run a request that is done keeps its status, so an aborted one never becomes Success, and its done callback has run exactly once. |
| `SchedulerProperties.AbortEffect` | libs/service/src/service.cpp:421-430 | Aborting takes effect exactly if the request is Open and has tiles left; otherwise nothing changes, also when the last tile is still being fetched. |
| `SchedulerProperties.SingleFetch` | libs/service/src/service.cpp:169-180 | Over any run without eviction no key is asked of a data source twice, however many requests name it and even if fetches fail. |
| `SchedulerProperties.NeverAskedTwice` | libs/service/src/service.cpp:169-180 | From a service with nothing requested, over every run without eviction, no key is asked of a data source twice. |
| `SchedulerProperties.Fairness` | libs/service/src/service.cpp:140-187 | If a worker could take the next tile of request B but takes another request's, that one was ahead of B and is behind it, or gone, afterwards, and strictly fewer requests are ahead of B. |
| `SchedulerProperties.WaitingBound` | libs/service/src/service.cpp:140-187 | While B's next tile is not handed out, over any run, workers that could take it pass it over at most as often as requests stood ahead of it. |
| `SchedulerProperties.Settled` | libs/service/src/service.cpp:136-195 | When nobody works and a poll finds nothing: a request served by that source is Success if and only if it was not aborted, has left the list and lost no tile; one still in the list waits for a key that was lost. |
| `SchedulerProperties.DeadlockFree` | libs/service/src/service.cpp:222-278 | If nothing was lost, nobody works, and polling every source found nothing, then every request that one of them serves is Success or Aborted. |
| `SchedulerProgress.StepUses` | libs/service/src/service.cpp:128-279 | Whatever a step gets done is taken from the work that is left: a poll that serves or hands out a tile uses one up, a worker's step one of the three that its job needs; only adding a request adds work. |
| `SchedulerProgress.ProgressBound` | libs/service/src/service.cpp:128-279 | Over any run, polls serve or hand out at most as many tiles as there were and were requested, and at most four steps per tile get anything done. |
| `SchedulerProgress.ProgressFromNothing` | libs/service/src/service.cpp:128-279 | From a service with nothing requested: at most one such poll, and four such steps, for each tile requested. |
| `SchedulerProgress.RestIsSuccess` | libs/service/src/service.cpp:222-278 | From a service with nothing requested, in any run without failures and aborts, evictions included: once no step gets anything done any more, every request that some source serves is a Success. |
| `SchedulerProperties.StuckForever` | libs/service/src/service.cpp:271-275 | A failed fetch blocks its key: a queued request whose next tile has that key, whichever source serves it, is Open or Aborted at the end of every run, never Success. |
| `SchedulerProperties.BlockedByFailure` | libs/service/src/service.cpp:271-275 | From a service with nothing requested: wherever a run has got to, a request that a lost key blocks there is never a Success, however the run goes on. |
| `SchedulerProperties.UncachedKeeps` | libs/service/src/service.cpp:258-266 | A key that is being fetched, or was lost, is not in the cache, whatever the step. |
| `SchedulerJobs.VisitExactly` | libs/service/src/service.cpp:145-177 | What a worker does for a request, field by field: its next tile is served exactly if the key of the layer's type, the map, the layer and the tile is in the cache, and taken exactly if that key is neither there nor in progress, both only at a source of the request's map that has its layer. |
| `SchedulerJobs.PollExactly` | libs/service/src/service.cpp:136-190 | For every request there is: what a poll delivers of it are its next tiles in order, each of them cached under its own key; and the job that a poll returns is for a queued request, with the type, map, layer and tile of the tile right behind those. |
| `SchedulerJobs.PollFrame` | libs/service/src/service.cpp:128-196 | What else a poll does: the job goes to its worker, its key to those in progress, and its request behind all others; of the requests those with tiles left stay, in their order; cache, other workers and logs are as before. |
| `SchedulerJobs.StepExactly` | libs/service/src/service.cpp:222-430 | Every other step, field by field: exactly when it can be taken, which fields change and to what, and that no others do. |
| `SchedulerJobs.JobsAreRequested` | libs/service/src/service.cpp:151-186 | From a service with nothing requested, in every state of every run: each job that a worker holds or that was lost, and each key that a data source was asked for, has the type, map, layer and tile of a tile that was handed out of a request. |
| `Controllers.LayerTilesRequest.constructor` | libs/service/src/service.cpp:23-38 | A new request is Open with nothing handed out, or Success if it has no tiles, and no callback has run. |
| `Controllers.LayerTilesRequest.NotifyStatus` | libs/service/src/service.cpp:71-78 | The done callback runs, with the status, unless the request is Open. |
| `Controllers.LayerTilesRequest.SetStatus` | libs/service/src/service.cpp:62-69 | The status is set and the done callback notified. |
| `Controllers.LayerTilesRequest.NotifyResult` | libs/service/src/service.cpp:40-60 | The tile is delivered, the count goes up, and the last one makes the request a Success. |
| `Controllers.Controller.Look` | libs/service/src/service.cpp:145-177 | What to do for a request, field by field: it is passed over, served or given to the worker exactly by whether the key of its type, map, layer and next tile is cached or in progress; and that key. |
| `Controllers.Controller.Walk` | libs/service/src/service.cpp:139-188 | One walk of the for loop over the list, in place, is the scan of the specification: same state, same job, same flag. |
| `Controllers.Controller.RemoveFinished` | libs/service/src/service.cpp:193 | The cleanup keeps exactly the requests with tiles left, in order. |
| `Controllers.Controller.NextJob` | libs/service/src/service.cpp:128-196 | The do-while loop terminates, is the atomic poll step of the scheduler and keeps the invariant; the job returned is the one that the worker now holds, of a listed request, with the type, map, layer and tile of the tile that this request was the last to hand out. |
| `Controllers.Controller.AddRequest` | libs/service/src/service.cpp:404-419 | Any request may be given: one that is done is only notified, once more; any other is appended to the list, once more if it is there already. A new one is the scheduler's add step and keeps the invariant. |
| `Controllers.Controller.AbortRequest` | libs/service/src/service.cpp:421-430 | Aborting is the scheduler's abort step and keeps the invariant. |
| `Controllers.Controller.Fetched` | libs/service/src/service.cpp:251 | The data source has been asked: the scheduler's fetch step, outside the lock. |
| `Controllers.Controller.PutTileLayer` | libs/service/src/service.cpp:260 | The cache put is a step of its own, outside the lock and before the key leaves the set. |
| `Controllers.Controller.Finish` | libs/service/src/service.cpp:262-269 | Erase and notify are the scheduler's completion step. |
| `Controllers.Controller.GiveUp` | libs/service/src/service.cpp:271-275 | The catch block changes neither key set, cache, list nor request. |
| `Controllers.Controller.Request` | libs/service/src/service.cpp:553-591 | A bundle is accepted exactly if every request in it can be served. Then every request in it is known to the service, those with tiles stand in the list behind all others, in the order of the bundle and as often as they are named, Open and with nothing handed out, and one without tiles is a Success that has been told so each time it is named; nothing else has changed. Otherwise the service is unchanged, each refused request gets its own reason as often as it is named, every other one that is open is Aborted, and the done callback runs for all but those without tiles and without a reason. |
| `Controllers.CheckAll` | libs/service/src/service.cpp:556-573 | First pass: exactly the requests that cannot be served get their reason as status, once for each time they are named. |
| `Controllers.AbortOpen` | libs/service/src/service.cpp:576-583 | Second pass of a refused bundle: exactly the open requests are Aborted. |
| `Controllers.AddAllKeeps` | libs/service/src/service.cpp:584-587 | Queueing a whole bundle keeps the scheduler's invariant. |
| `Controllers.AddAllEffect` | libs/service/src/service.cpp:584-587 | What queueing a bundle does, for any bundle: each request in it is known afterwards with its new value; the list is the old one and behind it, in their order, exactly those of the bundle that have tiles; every other request, the workers, the key set, the cache and the logs are as before. |
| `Bits.BitOfByte` | examples/cpp/fs-datasource/zserio/runtime/zserio/BitStreamWriter.cpp:560-590 | The bits of a byte buffer, in their order, are those of each byte from the one worth 128 to the one worth 1. |
| `Wire.TwosComplement` | examples/cpp/fs-datasource/zserio/runtime/zserio/BitStreamReader.cpp:323-338 | A signed value that fits in n bits comes back from its two's complement form. |
| `Wire.AlignReaches` | examples/cpp/fs-datasource/zserio/runtime/zserio/BitStreamWriter.cpp:529-537 | The `(alignment - offset)` skip of writer and reader lands on a multiple of the alignment exactly when its truncation to 8 bits loses nothing and it is at most 64; below 64 it always does. |
| `Wire.AlignToIsPad` | examples/cpp/fs-datasource/zserio/runtime/zserio/BitPositionUtil.h:19-24 | The position utility's `alignTo` is the position plus the padding the writer and reader skip. |
| `BitWriter.PatchBits` | examples/cpp/fs-datasource/zserio/runtime/zserio/BitStreamWriter.cpp:560-590 | Masking and or-ing a field into a byte replaces exactly that field's bits. |
| `BitWriter.BitStreamWriter.PutBits` | examples/cpp/fs-datasource/zserio/runtime/zserio/BitStreamWriter.cpp:557-593 | First part, whole bytes and last part together overwrite exactly bits [pos, pos + n) with the big-endian value, and leave every other bit of the buffer. |
| `BitWriter.BitStreamWriter.WriteUnsignedBits32Impl` | examples/cpp/fs-datasource/zserio/runtime/zserio/BitStreamWriter.cpp:549-594 | Succeeds exactly if there is no buffer or the bits fit; then the value is written at the position and nothing else changes; if not, nothing changes at all. |
| `BitWriter.BitStreamWriter.WriteUnsignedBits64Impl` | examples/cpp/fs-datasource/zserio/runtime/zserio/BitStreamWriter.cpp:596-607 | The same for up to 64 bits, written as a high and a low part; a failure leaves everything before the position. |
| `BitWriter.BitStreamWriter.WriteUnsignedBits32` | examples/cpp/fs-datasource/zserio/runtime/zserio/BitStreamWriter.cpp:347-356 | A width outside 1..32 or a value that does not fit is refused; otherwise exactly the value's bits are written. |
| `BitWriter.BitStreamWriter.WriteUnsignedBits64` | examples/cpp/fs-datasource/zserio/runtime/zserio/BitStreamWriter.cpp:358-367 | The same for widths up to 64. |
| `BitWriter.BitStreamWriter.WriteSignedBits32` | examples/cpp/fs-datasource/zserio/runtime/zserio/BitStreamWriter.cpp:369-379 | A signed value within the width is written in two's complement, any other refused. |
| `BitWriter.BitStreamWriter.WriteSignedBits64` | examples/cpp/fs-datasource/zserio/runtime/zserio/BitStreamWriter.cpp:381-391 | The same for widths up to 64. |
| `BitWriter.BitStreamWriter.WriteBool` | examples/cpp/fs-datasource/zserio/runtime/zserio/BitStreamWriter.cpp:393-396 | One bit is written. |
| `BitWriter.BitStreamWriter.WriteVarNum` | examples/cpp/fs-datasource/zserio/runtime/zserio/BitStreamWriter.cpp:620-659 | The loop emits exactly the bytes of the number's form: sign, continuation bits, and 8 payload bits in the last byte of the longest form. |
| `BitWriter.BitStreamWriter.WriteVar` | examples/cpp/fs-datasource/zserio/runtime/zserio/BitStreamWriter.cpp:398-448 | A value is written exactly if it is in range and fits, in its shortest form; INT64_MIN as the one byte 0x80. |
| `BitWriter.BitStreamWriter.WriteRaw` | examples/cpp/fs-datasource/zserio/runtime/zserio/BitStreamWriter.cpp:473-490 | The aligned copy and the unaligned loop write the same bits. |
| `BitWriter.BitStreamWriter.WriteBytes` | examples/cpp/fs-datasource/zserio/runtime/zserio/BitStreamWriter.cpp:468-491 | Bytes behind their length. |
| `BitWriter.BitStreamWriter.SetBitPosition` | examples/cpp/fs-datasource/zserio/runtime/zserio/BitStreamWriter.cpp:519-527 | A position is refused exactly if there is a buffer and it lies behind the end. |
| `BitWriter.BitStreamWriter.AlignTo` | examples/cpp/fs-datasource/zserio/runtime/zserio/BitStreamWriter.cpp:529-537 | Zero bits up to the next multiple; fails exactly when the skip is too wide for one write or does not fit. |
| `BitWriter.BitStreamWriter.WriteBitBuffer` | examples/cpp/fs-datasource/zserio/runtime/zserio/BitStreamWriter.h:237-270 | Length, whole bytes (copied or looped) and left-over bits are exactly the bits of the bit buffer. |
| `BitWriter.BitStreamWriter.WriteField` | examples/cpp/fs-datasource/zserio/runtime/zserio/BitStreamWriter.cpp:347-491 | Any field is written if and only if it is valid and fits, as exactly its own bits at the position. |
| `BitReader.Loaded` | examples/cpp/fs-datasource/zserio/runtime/zserio/BitStreamReader.cpp:148-198 | Shifting the parsed bytes leaves exactly the first bits that were asked for of the bytes from the position on. |
| `BitReader.SignExtension` | examples/cpp/fs-datasource/zserio/runtime/zserio/BitStreamReader.cpp:323-338 | The 64-bit subtraction with wrap-around is two's complement in n bits, for every n up to 64. |
| `BitReader.Spanning` | examples/cpp/fs-datasource/zserio/runtime/zserio/BitStreamReader.cpp:295-320 | The rest of one cache, shifted, plus the top of the next is the value of the bits across both. |
| `BitReader.ReadsInStep` | examples/cpp/fs-datasource/zserio/runtime/zserio/BitStreamReader.cpp:295-320 | While the cache holds the next unread bits, a read returns the next n bits and fails exactly at the end, and unless it fails the cache again holds the next unread bits. |
| `BitReader.CopyIsRead` | examples/cpp/fs-datasource/zserio/runtime/zserio/BitStreamReader.h:262-268 | Bytes copied from an aligned position are the bytes that bit-by-bit reads return, and these fail exactly if the copy would run over the end. |
| `BitReader.BitStreamReader.constructor` | examples/cpp/fs-datasource/zserio/runtime/zserio/BitStreamReader.cpp:358-392 | A new reader is at bit 0 with nothing cached. |
| `BitReader.BitStreamReader.FillCache` | examples/cpp/fs-datasource/zserio/runtime/zserio/BitStreamReader.cpp:232-292 | The cache holds exactly the wanted number of bits from the byte on. |
| `BitReader.BitStreamReader.LoadCacheNext` | examples/cpp/fs-datasource/zserio/runtime/zserio/BitStreamReader.cpp:232-292 | Fails, changing nothing, exactly if fewer bits are left than asked for; otherwise caches 64 bits, or what is left, from the byte of the position. |
| `BitReader.BitStreamReader.ReadUnsignedBitsImpl` | examples/cpp/fs-datasource/zserio/runtime/zserio/BitStreamReader.cpp:295-320 | In every state, also one a failed read has left: the exact value, position and cache contents. In step: bits [pos, pos + n) as a big-endian value and a step of n, or failure exactly at the end. |
| `BitReader.BitStreamReader.ReadUnsignedBits32` | examples/cpp/fs-datasource/zserio/runtime/zserio/BitStreamReader.cpp:394-399 | The same with the width checked first; a bad width changes nothing. |
| `BitReader.BitStreamReader.ReadUnsignedBits64` | examples/cpp/fs-datasource/zserio/runtime/zserio/BitStreamReader.cpp:401-415 | The same for up to 64 bits. |
| `BitReader.BitStreamReader.ReadSignedBits64` | examples/cpp/fs-datasource/zserio/runtime/zserio/BitStreamReader.cpp:417-443 | In any state of the reader: what an unsigned read would return, taken as two's complement. In step: the value of bits [pos, pos + n). |
| `BitReader.BitStreamReader.ReadVar` | examples/cpp/fs-datasource/zserio/runtime/zserio/BitStreamReader.cpp:457-815 | Returns what the bytes at the position denote in the number's format, over exactly those bytes, or fails. |
| `BitReader.BitStreamReader.SetBitPosition` | examples/cpp/fs-datasource/zserio/runtime/zserio/BitStreamReader.cpp:842-856 | Any position up to the end is reached, with the cache in step whatever it held before, and holding nothing or the rest of a load at the byte; one behind the end is refused with nothing changed. |
| `BitReader.BitStreamReader.AlignTo` | examples/cpp/fs-datasource/zserio/runtime/zserio/BitStreamReader.cpp:858-866 | In any state of the reader: the read of the missing bits, if any, and refused if they are none of 1 to 64. In step: skips as far as the writer pads, or fails exactly when the skip is too wide or runs into the end. |
| `BitReader.BitStreamReader.ReadBytes` | examples/cpp/fs-datasource/zserio/runtime/zserio/BitStreamReader.h:246-269 | Aligned copy and unaligned loop return the same: the counted bytes at the position. |
| `BitReader.BitStreamReader.ReadBitBuffer` | examples/cpp/fs-datasource/zserio/runtime/zserio/BitStreamReader.h:312-344 | The counted bits at the position, the left-over ones at the top of the last byte. |
| `BitReader.BitStreamReader.ReadField` | examples/cpp/fs-datasource/zserio/runtime/zserio/BitStreamReader.cpp:394-815 | Reading any kind of field with the cache is reading it bit by bit. |
| `VarNum.RoundTripIn` | examples/cpp/fs-datasource/zserio/runtime/zserio/BitStreamWriter.cpp:609-659 | Every value is read back from every byte count that it fits in, over exactly that many bytes. |
| `VarNum.RoundTrip` | examples/cpp/fs-datasource/zserio/runtime/zserio/BitStreamReader.cpp:457-815 | Every value in range is read back from the form the writer picks. |
| `VarNum.NegativeZero` | examples/cpp/fs-datasource/zserio/runtime/zserio/BitStreamReader.cpp:556-617 | The byte 0x80 reads as INT64_MIN. |
| `VarNum.SignedZero` | examples/cpp/fs-datasource/zserio/runtime/zserio/BitStreamReader.cpp:457-617 | A sign in front of nothing reads as zero in every form of every signed kind, but for that one byte of a varint. |
| `VarNum.InRangeByTable` | examples/cpp/fs-datasource/zserio/runtime/zserio/Types.cpp:90-110 | A value is in range exactly if the table of maxima has a large enough entry, and the first such entry is the byte count. |
| `VarNum.RangeOf` | examples/cpp/fs-datasource/zserio/runtime/zserio/Types.cpp:11-87 | For each of the nine kinds, in numbers: the values that can be written. |
| `VarNum.TableHolds` | examples/cpp/fs-datasource/zserio/runtime/zserio/Types.cpp:11-87 | For each kind and byte count, in numbers: the largest magnitude that fits is the one of its table. |
| `VarNum.WireForm` | examples/cpp/fs-datasource/zserio/runtime/zserio/BitStreamWriter.cpp:609-659 | Each byte of the form of a number, in numbers: how the sign, the flag that a byte follows, and six, seven or, in the 2nd, 4th, 5th, 8th or 9th byte of the longest form, eight bits of payload share it. |
| `VarNum.VarSizeWide` | examples/cpp/fs-datasource/zserio/runtime/zserio/BitStreamReader.cpp:777-815 | Five bytes of a varsize hold 36 bits: the reader keeps the low 32 of them, and refuses exactly those above 2^31 - 1. |
| `VarNum.VarSizeInRange` | examples/cpp/fs-datasource/zserio/runtime/zserio/Types.cpp:163-166 | A length can be written exactly if it is at most 2^31 - 1. |
| `VarNum.BitSizeOf` | examples/cpp/fs-datasource/zserio/runtime/zserio/Types.cpp:90-166 | The calculated size is the size of the bytes written, and it is an error exactly for a value out of range. |
| `VarNum.BuildByte` | examples/cpp/fs-datasource/zserio/runtime/zserio/BitStreamWriter.cpp:620-659 | The bits of one byte, assembled flag by flag, are the byte the format prescribes. |
| `Fields.EqualsIsSameBits` | examples/cpp/fs-datasource/zserio/runtime/zserio/BitBuffer.h:336-364 | Two bit buffers are equal if and only if they hold the same bits, whatever lies behind the last one. |
| `Fields.FieldForm` | examples/cpp/fs-datasource/zserio/runtime/zserio/BitStreamWriter.cpp:347-491 | What each kind of field is on the wire: the bits of the number, the most significant first, a negative one in two's complement; one bit; the bytes of a variable-length number; and bytes or bits behind their count as a varsize. |
| `Fields.FieldRoundTrip` | examples/cpp/fs-datasource/zserio/runtime/zserio/BitStreamReader.h:246-344 | Every kind of field reads back equal from any bit position, over exactly its own bits. |
| `Fields.MixedRoundTrip` | examples/cpp/fs-datasource/zserio/runtime/zserio/BitStreamReader.cpp:394-815 | Any sequence of fields written from any bit reads back equal and ends where the writing ended. |
| `Codec.WriteAll` | examples/cpp/fs-datasource/zserio/runtime/zserio/BitStreamWriter.cpp:347-491 | A sequence of fields is written if and only if it fits as a whole, as the concatenation of the fields' bits. |
| `Codec.Transfer` | examples/cpp/fs-datasource/zserio/runtime/zserio/BitStreamWriter.cpp:347-491 | Through a real buffer with any old contents, from any bit: succeeds exactly if the fields fit, gives equal fields back, and no other bit of the buffer changes. |
| `Codec.Replay` | examples/cpp/fs-datasource/zserio/runtime/zserio/BitStreamReader.cpp:295-320 | Over any sequence of reads and position changes, failed ones included: each result and each position is what three numbers say that follow from the commands and the buffer size alone; whenever those are in step, the result is that of a reader with only a position. |
| `Codec.AfterReads` | examples/cpp/fs-datasource/zserio/runtime/zserio/BitStreamReader.cpp:842-856 | After a position change and reads that stay inside the buffer the reader is in step, and what it caches depends only on the size, the position and the byte of the position change. |
| `Codec.FromStart` | examples/cpp/fs-datasource/zserio/runtime/zserio/BitStreamReader.cpp:358-370 | A new reader is as after a change to position 0. |
| `Codec.AfterFailure` | examples/cpp/fs-datasource/zserio/runtime/zserio/BitStreamReader.cpp:295-320 | A read that then runs into the end moves the position by what is cached. It leaves it, and the reader in step, if and only if the position was the end, or a multiple of 64 bits behind the byte of the last position change. |
| `Codec.ReadAfterFailure` | examples/cpp/fs-datasource/zserio/runtime/zserio/BitStreamReader.cpp:295-320 | The next read after a failure that moved the position: up to the cached bits it returns bits from before the failure, with a position too far on; it agrees with a reader that stayed only if both fail. |
| `Codec.AgreesIff` | examples/cpp/fs-datasource/zserio/runtime/zserio/BitStreamReader.cpp:295-320 | In any state, whatever led to it: the next read returns what a reader at the same position would, for every content of the buffer, if and only if a condition on the three numbers holds. |
| `Codec.StepsInStep` | examples/cpp/fs-datasource/zserio/runtime/zserio/BitStreamReader.cpp:842-856 | When each command puts the reader into step and out of it, both ways: a position change does; a load does exactly if it is at a byte; a failed read leaves it in step exactly if it was and nothing was cached. |
| `Codec.StaleCache` | examples/cpp/fs-datasource/zserio/runtime/zserio/BitStreamReader.cpp:295-320 | A concrete run in which a read after a failed one returns a stale byte and ends behind the end of the buffer. |
| `Delta.CastBack` | examples/cpp/fs-datasource/zserio/runtime/zserio/DeltaContext.h:98 | An element survives the conversion to a 64-bit word and back to its type, for every number of bits and sign, and every C++ type of that many bits or more. |
| `Delta.ElementBack` | examples/cpp/fs-datasource/zserio/runtime/zserio/DeltaContext.h:148-174 | Each packed element is read back, with the reader in the state that the next element needs: first element, plain, zero delta and signed delta. |
| `Delta.DeltaIsDifference` | examples/cpp/fs-datasource/zserio/runtime/zserio/DeltaContext.h:42-48 | The unchecked 64-bit subtraction is the exact difference whenever that fits in 63 bits. |
| `Delta.MaxDeltaBounds` | examples/cpp/fs-datasource/zserio/runtime/zserio/DeltaContext.h:95-107 | The maximum bit number bounds the difference of every two neighbours. |
| `Delta.DecisionInFull` | examples/cpp/fs-datasource/zserio/runtime/zserio/DeltaContext.h:211-224 | An array is packed if and only if it has two elements or more, no difference needs more than 62 bits, and the packed size is below the plain one, both taken modulo 2^32: wrapping in between changes nothing. |
| `Delta.DecisionInNumbers` | examples/cpp/fs-datasource/zserio/runtime/zserio/DeltaContext.h:211-224 | The decision in numbers: packed exactly if there are two elements or more, no two neighbours lie 2^62 or more apart, and, modulo 2^32, seven bits, the first element and the differences are fewer than one bit and all elements. The width of the differences is the least that holds all distances, and one for the sign, or none if all are zero. |
| `Delta.PackedForm` | examples/cpp/fs-datasource/zserio/runtime/zserio/DeltaContext.h:183-266 | What a packed array is on the wire: a set bit, the width in six bits, the first element in full, and then every difference to the neighbour before, in two's complement with one bit for the sign, or nothing if all are zero. |
| `Delta.UnpackedForm` | examples/cpp/fs-datasource/zserio/runtime/zserio/DeltaContext.h:183-266 | What is not packed: a bit that is not set, and all elements in full. |
| `Delta.CompressionBound` | examples/cpp/fs-datasource/zserio/runtime/zserio/DeltaContext.h:121-139 | The packed elements take the planned size if packed, and exactly one bit more than plain if not. Packing costs more than that bit if and only if the planned size wraps at 2^32 more often than the plain one and is below it modulo 2^32; never if it is below 2^32. |
| `Delta.CompressionInRange` | examples/cpp/fs-datasource/zserio/runtime/zserio/DeltaContext.h:211-224 | As long as both sizes are below 2^32: packed exactly if that is smaller, and then the size is at most that of the plain elements. |
| `Delta.PackingCanCost` | examples/cpp/fs-datasource/zserio/runtime/zserio/DeltaContext.h:211-224 | The bound is false of the code for large arrays: 477218588 bytes of 0 and 255 by turns are packed into 4294967298 bits although they are 3817748704. |
| `Delta.AbsDeltaBitLength` | examples/cpp/fs-datasource/zserio/runtime/zserio/DeltaContext.h:19-29 | The loop returns the least number of bits that hold the value. |
| `Delta.CalcBitLength` | examples/cpp/fs-datasource/zserio/runtime/zserio/DeltaContext.h:32-40 | The bit length of the distance between two elements. |
| `Delta.DeltaContext.Init` | examples/cpp/fs-datasource/zserio/runtime/zserio/DeltaContext.h:82-112 | After any number of elements: their count, total size, first size, and whether and how wide the differences are, as functions of the elements seen. |
| `Delta.DeltaContext.FinishInit` | examples/cpp/fs-datasource/zserio/runtime/zserio/DeltaContext.h:211-224 | The flag says packed exactly if the plan for all elements does. |
| `Delta.DeltaContext.BitSizeOf` | examples/cpp/fs-datasource/zserio/runtime/zserio/DeltaContext.h:122-139 | The size of the element's packed code. |
| `Delta.DeltaContext.WriteDescriptor` | examples/cpp/fs-datasource/zserio/runtime/zserio/DeltaContext.h:258-266 | One bit, and the maximum bit number in six if packed. |
| `Delta.DeltaContext.Write` | examples/cpp/fs-datasource/zserio/runtime/zserio/DeltaContext.h:183-208 | Writes exactly the element's packed code, or fails for want of room. |
| `Delta.DeltaContext.ReadDescriptor` | examples/cpp/fs-datasource/zserio/runtime/zserio/DeltaContext.h:238-249 | The mode that the descriptor bits denote. |
| `Delta.DeltaContext.Read` | examples/cpp/fs-datasource/zserio/runtime/zserio/DeltaContext.h:149-174 | Reads what the bits denote from the context's state, and leaves the state the format prescribes. |
| `Layouts.LayoutBack` | examples/cpp/fs-datasource/zserio/runtime/zserio/ArrayView.h:597-613 | If each element is taken back from its code, so are any number of them from the layout with its gaps. |
| `Layouts.ElementsAt` | examples/cpp/fs-datasource/zserio/runtime/zserio/ArrayView.h:544-577 | Every element's code lies at the element's position. |
| `Arrays.LengthForm` | examples/cpp/fs-datasource/zserio/runtime/zserio/ArrayView.h:641-644 | The two automatic kinds of arrays start with their length as a varsize, the others with their elements. |
| `Arrays.ElementForm` | examples/cpp/fs-datasource/zserio/runtime/zserio/ArrayView.h:646-654 | In the two aligned kinds every element is behind fewer than eight zero bits that take it to a byte, in the others right behind the one before it. |
| `Arrays.PlainRoundTrip` | examples/cpp/fs-datasource/zserio/runtime/zserio/ArrayView.h:597-655 | Plain arrays of every kind come back equal from any start bit and end at the same position. |
| `Arrays.PackedRoundTrip` | examples/cpp/fs-datasource/zserio/runtime/zserio/ArrayView.h:758-831 | Packed arrays come back equal, for every element type, sequence and start bit, and end at the same position. |
| `Arrays.ArrayRoundTrip` | examples/cpp/fs-datasource/zserio/runtime/zserio/ArrayView.h:597-831 | Either way of writing is undone by the matching way of reading. |
| `Arrays.BitSizeOf` | examples/cpp/fs-datasource/zserio/runtime/zserio/ArrayView.h:515-536 | The calculated size, packed or not, from any position, is the number of bits the matching write emits, modulo 2^32 as its type is; an error exactly if the length cannot be written. |
| `Arrays.InitializeOffsets` | examples/cpp/fs-datasource/zserio/runtime/zserio/ArrayView.h:544-577 | The size is again what is written, modulo 2^32, and each offset of an aligned array is the byte of that element's position, modulo 2^32 bits. |
| `Arrays.OffsetIsWhereWritten` | examples/cpp/fs-datasource/zserio/runtime/zserio/ArrayView.h:702-756 | An element's bits lie at its position, and its offset is that byte if and only if the position is below 2^32. |
| `Arrays.NewContext` | examples/cpp/fs-datasource/zserio/runtime/zserio/ArrayView.h:720-727 | A new context to which all elements have been announced. |
| `Arrays.Write` | examples/cpp/fs-datasource/zserio/runtime/zserio/ArrayView.h:638-655 | Succeeds exactly if the length can be written and everything fits; then the array's bits are written, also by a writer without a buffer, which only advances. |
| `Arrays.Read` | examples/cpp/fs-datasource/zserio/runtime/zserio/ArrayView.h:579-613 | Returns what the bits denote, with the length given or read, or fails. |
| `Arrays.Transfer` | examples/cpp/fs-datasource/zserio/runtime/zserio/ArrayView.h:758-831 | A buffer of exactly the calculated size takes the array from any start bit, and gives it back, if and only if the length can be written and the size did not wrap. |
| `Framing.FeedInParts` | libs/model/src/stream.cpp:30-34 | Feeding two parts one after the other is feeding them at once. |
| `Framing.ChunkIndependence` | libs/model/src/stream.cpp:30-86 | However a stream is cut, the same values are handled in the same order and the reader ends in the same state; it refuses a version one way exactly if it does the other, having handled the same values. |
| `Framing.StreamRoundTrip` | libs/model/src/stream.cpp:172-194 | Every message a writer frames is handled, in order, and nothing else; no byte is left. |
| `Framing.ChunkedRoundTrip` | libs/model/src/stream.cpp:30-86 | The same for the stream cut into any chunks. |
| `Framing.FrameBytes` | libs/model/src/stream.cpp:172-194 | The bytes of a message, in numbers: version 0.1.1, the kind, the length, least significant bytes first, and the body. |
| `Framing.KindDecides` | libs/model/src/stream.cpp:41-86 | For any body below 4 GiB: a message of kind 1, 2 or 3 makes the reader call the handler with exactly that message and leaves nothing unread; one of any other kind calls no handler, and its body is read on. |
| `Framing.VersionDecides` | libs/model/src/stream.cpp:102-110 | A header is refused exactly if its first four bytes are not those of version 0.1, whatever its patch version. |
| `Framing.ValueTaken` | libs/model/src/stream.cpp:41-86 | What is taken from behind a header is exactly the value if and only if the kind has one or the value is empty; otherwise the value stays in front of what comes next, and nothing is handled. |
| `Framing.AnyMessageBack` | libs/model/src/stream.cpp:41-115 | For any framed message of any kind, at any point of a stream: reading goes on behind it, with it handled, or for a kind without a value in front of its value. |
| `Framing.ValueReadAsMessages` | libs/model/src/stream.cpp:54-85 | The value of such a kind is read as messages: if it is made of some, those are handled. |
| `Framing.UnknownKindIsNotSkipped` | libs/model/src/stream.cpp:54-85 | For any kind without a value, any body and anything behind it: if the first 11 bytes there look like a header of another version, the reader refuses them, with nothing handled. |
| `Framing.Reader.ReadMessageHeader` | libs/model/src/stream.cpp:93-115 | Takes 11 bytes if there are that many, and raises, with 6 consumed, exactly on an incompatible version. |
| `Framing.Reader.ContinueReading` | libs/model/src/stream.cpp:41-86 | One round of the reader: what it leaves to be done is the same as before, and it stops exactly when the bytes do not suffice. |
| `Framing.Reader.Read` | libs/model/src/stream.cpp:30-34 | The loop terminates and does exactly what feeding those bytes means. |
| `PoolSync.CatchesUpIff` | libs/model/src/stream.cpp:77-82 | A receiver with a prefix of the sender's pool ends with the whole pool if and only if the first string it is sent is not beyond those it has. |
| `PoolSync.Writer.Write` | libs/model/src/stream.cpp:127-170 | Exactly if the highest string of the pool is above the one that the client is known to have: one message with every string from that one on, or from the first on, and its id, and the offset becomes the highest id. Then the layer; a type other than features and source data raises after the strings were sent. |
| `PoolSync.Writer.SendEndOfStream` | libs/model/src/stream.cpp:196-199 | One end message, without a body. |
| `PoolSync.SupportedIsTaken` | libs/model/src/stream.cpp:152-169 | The frame of a layer that the writer accepts, kind 2 for features and 3 for source data, makes the reader call the handler with it and leaves nothing unread. |
| `PoolSync.OtherKinds` | libs/model/src/stream.cpp:172-199 | Strings are sent as kind 1 and are taken too; the end is sent as kind 128 and takes no value. |
| `PoolSync.SendEffect` | libs/model/src/stream.cpp:127-146 | After one write the receiver has the sender's whole pool for that node, its other pools are as they were, and the layer has been delivered. |
| `PoolSync.StaysSynced` | libs/model/src/stream.cpp:127-170 | For any interleaving of pool growth and writes over any number of nodes, the receiver's pools stay prefixes of the sender's and every layer ever delivered resolves each id to the sender's string. |
| `PoolSync.StartsSynced` | libs/model/src/stream.cpp:117-125 | A writer whose offsets are below the ends of the receiver's pools starts in sync. |
| `PoolSync.MissingForever` | libs/model/src/stream.cpp:131-144 | A string the writer wrongly believes sent is never sent, over any run, and no layer that uses it resolves. |
| `PoolSync.OverTheWire` | libs/model/src/stream.cpp:30-199 | The bytes of any messages, in any chunks, leave the client as the messages themselves would. |
| `PoolSync.SendRun` | libs/model/src/stream.cpp:127-170 | The writer object, over any run of pool growth and writes, sends exactly the run's messages and ends with the run's offsets. |
| `PoolSync.RunIsReceived` | libs/model/src/stream.cpp:77-82 | The client of a run is what receiving all of its messages makes of it. |
| `PoolSync.RunOverTheWire` | libs/model/src/stream.cpp:30-199 | The bytes of a whole run over many nodes, each message with the kind of what it carries, cut into any chunks, leave a reader with nothing unread, pools that are prefixes of the sender's, and every delivered layer resolving. |
| `CacheStore.LoadStored` | libs/service/src/cache.cpp:29-49 | A whole pool that was stored is read back as it was. |
| `CacheStore.StepKeeps` | libs/service/src/cache.cpp:9-107 | Every step, restart included, keeps each stored tile covered by the stored pool of its node, and no stored string is renumbered or dropped. |
| `CacheStore.StaysConsistent` | libs/service/src/cache.cpp:91-107 | The same over any run, at every point, also between the two blob writes of one tile and if the second never comes. |
| `CacheStore.OldTilesResolve` | libs/service/src/cache.cpp:63-89 | A cached tile read again after any run, restarts included, resolves each of its ids to the string it had. |
| `CacheStore.Reopened` | libs/service/src/cache.cpp:9-53 | After a restart all blobs are there; a pool that was stored is opened as it was, and the offset that the cache reports for it is its highest id. |
| `CacheStore.Cache.GetStringPool` | libs/service/src/cache.cpp:9-53 | The pool in memory, or one made of the stored blob, which is then kept; the offset of the node becomes the pool's highest id exactly if the pool was loaded and there was none. |
| `CacheStore.OtherPool` | libs/service/src/cache.cpp:91-107 | If a layer brings a pool of its own, the strings stored for its node keep their meaning if and only if that pool has nothing to store or extends them. |
| `CacheStore.Cache.PutTileLayer` | libs/service/src/cache.cpp:91-107 | For any layer and any pool: the two stored writes in their order, first every string of the pool with its id, exactly if the highest is above the offset, which it then becomes, and then the tile; an unsupported layer type raises in between. With the cache's own pool the result is consistent. |
| `CacheStore.Cache.GetTileLayer` | libs/service/src/cache.cpp:63-89 | Found exactly if stored, with a pool that covers its ids; hits and misses are counted. |
| `CacheStore.Cache.CachedStringPoolOffset` | libs/service/src/cache.cpp:109-121 | Refuses an empty node id; otherwise the node's offset, or 0 if there is none; the stored pool has that many strings. |
| `FeatureIndex.StripOptionalIdParts` | libs/model/src/featurelayer.cpp:215-237 | The nested loops, with their one pass through the composition, compute the stripping of the specification. |
| `FeatureIndex.StripKeepsMandatory` | libs/model/src/featurelayer.cpp:215-237 | On keys in the order of a composition with distinct labels, exactly the mandatory parts are kept. |
| `FeatureIndex.StripIsFront` | libs/model/src/featurelayer.cpp:203-237 | On any keys, if labels are distinct: the mandatory parts are kept up to the longest front of the keys that is in the order of the composition, and all behind it are lost. |
| `FeatureIndex.MatchesIff` | libs/model/src/featurelayer.cpp:842-857 | Where ids are in the order of the composition: a feature is a match exactly if it has the type asked for and agrees with the query on all mandatory parts. |
| `FeatureIndex.PrimaryIsFirst` | libs/model/src/featurelayer.cpp:872-886 | The composition that a type's ids are validated against and stripped by is the first one of the first type with that name. |
| `FeatureIndex.PrimaryIff` | libs/model/src/featurelayer.cpp:872-886 | There is one exactly if some type has the name and the first that does has a composition. |
| `FeatureIndex.SecondIsForReferences` | libs/model/src/info.cpp:386-412 | A type with the compositions [areaId, laneId] and [laneId], for every hash function: an id in terms of the second is refused, one in terms of the first is accepted, and that feature is found under its whole id, and not under another area or under the lane alone. |
| `FeatureIndex.SortSorts` | libs/model/src/featurelayer.cpp:111-123 | Sorting gives a sorted permutation, by hash and then by address. |
| `FeatureIndex.LowerBound` | libs/model/src/featurelayer.cpp:832-836 | The binary search returns the first entry whose hash is not below. |
| `FeatureIndex.EarliestInIndex` | libs/model/src/featurelayer.cpp:838-863 | In a sorted index the earliest match is reached before any later entry with its hash. |
| `FeatureIndex.FeatureLayer.EmplaceKeys` | libs/model/src/featurelayer.cpp:322-328 | The keys of id parts go to the pool in their order; they are read back as the pool spells them, values as they were given. |
| `FeatureIndex.FeatureLayer.EmplaceString` | libs/model/include/mapget/model/stringpool.h:8-15 | Whoever shares the pool may add strings at any time: prefix, features and index stay what they are. |
| `FeatureIndex.FeatureStays` | libs/model/src/featureid.cpp:16-115 | Type and id parts of a feature are read back the same for good, however the pool grows. |
| `FeatureIndex.FeatureLayer.SetIdPrefix` | libs/model/src/featurelayer.cpp:747-783 | Refused, changing nothing, exactly if there are features already or some type's primary composition does not start with the prefix; otherwise its keys go to the pool. |
| `FeatureIndex.FeatureLayer.NewFeature` | libs/model/src/featurelayer.cpp:296-355 | Refused, changing nothing, exactly for an empty id, a type that has no first composition, or parts that do not fit the first composition of the first type with that name, as given; otherwise the feature is added, its type and keys go to the pool, it is indexed under the type as given and the parts as read back, and it is read back as it was given if and only if the pool spelled none of its names differently and no two of them differ in case only. |
| `FeatureIndex.NamesKeptIff` | libs/model/src/featurelayer.cpp:316-328 | The same condition for any pool that has grown by a feature's names. |
| `FeatureIndex.KeysMatter` | libs/model/src/featurelayer.cpp:215-237 | When the pool respells keys that are in the order of a composition whose labels differ in more than case: what a lookup compares of the id is kept if and only if no part is mandatory from the first respelled key on. |
| `FeatureIndex.KeptIff` | libs/model/src/featurelayer.cpp:842-857 | For every hash function: a feature is met by lookups for exactly the ids that it was added with if and only if the pool kept its type and what is compared of its parts. |
| `FeatureIndex.ScanIff` | libs/model/src/featurelayer.cpp:824-864 | For every hash function: every lookup is a scan of the features as they were added, if the pool kept them all; where ids are distinct, only if it did; and always only if it kept every feature that was the first with its id. |
| `FeatureIndex.PointIsLost` | libs/model/src/featurelayer.cpp:842 | With "point" in the pool, as libs/model/src/stringpool.cpp puts it there: a feature of type "Point" is accepted and then not found under its own id, for every hash function. |
| `FeatureIndex.FeatureLayer.SortFeatureHashIndex` | libs/model/src/featurelayer.cpp:118-123 | Afterwards the index is sorted and still has exactly one entry per feature; a cleared flag always means a sorted index. |
| `FeatureIndex.FeatureLayer.Find` | libs/model/src/featurelayer.cpp:824-864 | For any hash function, and with any additions in between: the earliest feature that has the hash asked for and is read back with the type and the parts asked for, stripped by the first composition of the first type with that name, and nothing exactly if there is none. If the pool kept all ids, the earliest one that was added with that id. Raises exactly for a type without such a composition. |
| `FeatureIndex.FeatureLayer.Probe` | libs/model/src/featurelayer.cpp:838-863 | Walking over the entries with the hash, past collisions, gives the earliest such feature or shows that there is none. |
| `StringPools.Emplace` | libs/model/include/mapget/model/stringpool.h:8-15 | The id of the pool's first string that is the same but for case, with the pool unchanged, or of the string itself, which is then added at the end. |
| `StringPools.SpellingStays` | libs/model/include/mapget/model/stringpool.h:8-15 | A spelling is for good: it does not change when the pool grows. |
| `StringPools.StaysUnique` | libs/model/include/mapget/model/stringpool.h:8-15 | However many strings go to a pool, no two of it are the same but for case. |
| `StringPools.KeepsIff` | libs/model/include/mapget/model/stringpool.h:8-15 | A pool that has grown by names of a set until it has them all keeps the spelling of all if and only if it did before and no two differ in case only, for every notion of case. |
| `Clone.SameUnfolding` | libs/model/src/featurelayer.cpp:921-953 | A memo whose entries are complete copies preserves meaning: to any depth, through sharing and cycles, a copy unfolds like its original, with the same values and with every name as the pool of the copy spells it. |
| `Clone.CopyMeansTheSame` | libs/model/src/featurelayer.cpp:921-1132 | After a call every memo entry is a complete copy, and the node returned unfolds like its original, up to the case of names, for every notion of case. |
| `Clone.ExactNames` | libs/model/src/featurelayer.cpp:921-1132 | The copy unfolds to the very same tree at every depth if and only if the pool copied into spelled no name below the original differently before the call, and no two of those names differ in case only. |
| `Clone.CopyIs` | libs/model/src/featurelayer.cpp:921-990 | What a complete copy is, node by node: a scalar is the same; an array has the copies of its elements in their order; an object or attribute layer has its kind and the copies of its fields in their order, under their names but for case. |
| `Clone.CopiesExactly` | libs/model/src/featurelayer.cpp:921-1132 | A call copies exactly the nodes that can be got to from the one it is given and that the memo does not have yet: none is left out and none is copied in vain. |
| `Clone.ReachedHas` | libs/model/src/featurelayer.cpp:936-942 | Every name below an original is in the pool of its copy, in some spelling. |
| `Clone.SpeedIsRespelled` | libs/model/src/featurelayer.cpp:936-942 | A field "Speed" copied into a layer whose pool has "speed" comes out as "speed". |
| `Clone.CopiedTwice` | libs/model/src/featurelayer.cpp:936-951 | Two copies in a row are one: old nodes untouched, each new entry complete and at an address of its own. |
| `Clone.FilledCopied` | libs/model/src/featurelayer.cpp:936-951 | A container entered into the memo first and filled afterwards is a complete copy in the end, also when it contains itself. |
| `Clone.TileFeatureLayer.AddField` | libs/model/src/featurelayer.cpp:938-942 | One more field of a node, under an id that means the name as the pool spells it; the pool grows by the name only if it has none that is the same but for case. |
| `Clone.TileFeatureLayer.Clone` | libs/model/src/featurelayer.cpp:921-1132 | Terminates on any graph; old nodes and strings are unchanged; every new memo entry leads to a complete copy (kind, scalar, fields in order under their names as the pool spells them, children through the memo) at an address of its own; there are exactly as many new nodes as newly copied originals, so each is copied once; and the pool grows only by names below the original. |
| `Clone.TileFeatureLayer.CloneElems` | libs/model/src/featurelayer.cpp:945-953 | The elements of an array, copied in order into the new array. |
| `Clone.TileFeatureLayer.CloneFields` | libs/model/src/featurelayer.cpp:1070-1091 | The fields of an object or attribute layer, in order, under the same names as the pool spells them; a field whose name the source does not know is dropped. |

## Left out

- HTTP server and client, command line, YAML configuration, SQLite statements, Python bindings, logging: input and output only.
- Adding and removing data sources, and the termination of workers: the workers and their sources are fixed.
- Condition variables and the status mutex: a region under a lock is one step, and the cache lookups of one `nextJob` see one cache.
- loadAddOnTiles: a fetch gives the layer for the key that was asked for.
- The order of eviction in the memory cache: an entry may be dropped at any time.
- Exceptions thrown by result or done callbacks: callbacks return.
- Controllers.Controller.AddRequest: what a request that is queued twice does to fairness; runs of the scheduler only add new requests.
- Controllers.Controller.Request: the answer of the access check is a parameter; the check itself is a lookup. Requests of a bundle are new to the service, as they were constructed.
- Controllers.Controller.Fetched: the answer of the data source is not modelled beyond its key.
- Implicit arrays, whose length is whatever is left of the buffer, and arrays of compound elements.
- Framing.StreamRoundTrip: requires bodies shorter than 4 GiB, since the length field is 32 bits wide.
- The 32-bit variant of the reader, floating-point fields, strings as a type of their own (they are bytes), zserio reflection and text output.
- BitReader.BitStreamReader.constructor: the refusal of buffers of more than 2^61 - 5 bytes.
- BitReader.BitStreamReader.ReadVar: the nine unrolled readers are one loop over the number of bytes. Stated for a reader in step: what it returns after a failed read is known only byte by byte, from `Codec.Replay`.
- BitReader.BitStreamReader.ReadBytes: stated for a reader in step.
- BitReader.BitStreamReader.ReadBitBuffer: stated for a reader in step.
- BitReader.BitStreamReader.ReadField: stated for a reader in step.
- BitReader.Loaded: the eight parsers of one to eight bytes are one recursive function.
- The flag word of the delta context: its bits are separate booleans.
- String ids are 16 bits wide in the source and unbounded here: a pool with more strings than that.
- PoolSync.Writer.Write: the wire form of a string pool, layers without a string pool, and a pool that grows while it is being written. Which strings a pool takes to be the same makes no difference there, where strings come with their ids.
- CacheStore.Cache.GetTileLayer: the check of the map id, and bodies that do not decode.
- FeatureIndex.FeatureLayer.NewFeature: whether id parts fit a composition is an arbitrary predicate; the feature hash is an arbitrary function; the feature's other columns.
- The string form of find, and setStrings.
- Clone.TileFeatureLayer.Clone: the cases for geometries, validities, source references, feature ids and relations, which preserve less by design; a feature raises.
