# Hinted-handoff block codec, pump loop and Redis keyspace count

A Dafny model of three pieces of the gafka repository:

- **The disk block codec** (`cmd/kateway/hh/disk/block.go`). A hinted-handoff record is
  written to a segment file as `[key length: uint32 big-endian][key][value length][value]`.
  The module `DiskBlock` has four parts:
  - the pure frame: `PutUint32`/`Uint32Of`, `Frame`, and a reference decoder `Decode`;
  - the `io.Writer`/`io.Reader` the codec talks to, as classes `Writer` and `Reader`;
  - the free functions `writeBytes`/`readBytes`;
  - the `block` object, as class `Block`, whose `writeTo`/`readFrom` methods update the
    writer, the reader and the block's reused `key`/`value` slices.
- **The pump** (`cmd/kateway/hh/disk/pump.go`). This is the background loop of a queue:
  - it takes the next block;
  - it publishes the block with up to `defaultMaxRetries` attempts and a doubling,
    capped backoff;
  - it commits the cursor on success and dumps it every `dumpPerBlocks` blocks;
  - when every attempt fails it rolls the block back;
  - it dispatches on the error that `Next` returns.

  The module `DiskPump` specifies one turn of the loop (`RunRound`) and the whole loop
  (`RunPump`) as functions over a script of turns. Class `Queue` runs the loop
  imperatively (`Iterate`, `Deliver`, `Pump`) and is proved equal to those functions.
  Every call the pump makes on the queue, the cursor, the publish store and the wait
  group goes into a trace. The lemmas about the trace are:
  - `okN` counts commits;
  - `failN` counts failed rollbacks;
  - `wg.Done()` happens once, last, exactly when the pump returns.
- **The keyspace count of the Redis INFO watcher** (`cmd/kguard/watchers/redis/info.go`).
  `extractKeysCount` reads `N` out of `db0:keys=N,expires=...`. The `keysN` loop sums
  that count, as a Go `int64`, over the `db*` entries of the INFO map. The module
  `RedisInfo` also models the library calls these rely on:
  - `strings.SplitN(s, sep, 2)`;
  - `HasPrefix`;
  - `Contains`;
  - `strconv.ParseInt(s, 10, 64)`, including its range-error saturation.

Three points about pump.go worth knowing:
- The pump has no permanent-error bypass: no failure commits the cursor after a single attempt. Every failed publish is retried the same way.
- An exhausted block is counted in `failN` only when `Rollback` itself fails. A successful
  rollback is not counted as a failure.
- With `defaultMaxRetries == 0`, a fetched block is neither published nor rolled back
  (`NoAttempt`), because `err` is still `nil` after the empty retry loop.

## Model

| member | source | states |
|---|---|---|
| DiskBlock.Uint32RoundTrip | cmd/kateway/hh/disk/block.go:90-100 | reading back the four big-endian bytes written for v gives v |
| DiskBlock.BytesRoundTrip | cmd/kateway/hh/disk/block.go:90-100 | every four bytes are the big-endian encoding of the uint32 they decode to (the encoding is onto) |
| DiskBlock.LengthField | cmd/kateway/hh/disk/block.go:21-27 | the uint32 length field equals the length below 2^32 and agrees with it modulo 2^32 otherwise |
| DiskBlock.FrameLayout | cmd/kateway/hh/disk/block.go:29-48 | the frame is key length, key, value length and value in that order, and is \|key\| + \|value\| + 8 bytes long |
| DiskBlock.Refill | cmd/kateway/hh/disk/block.go:64-67 | after copy into a reused slice, the slice starts with the data, grows only to the data's length, and keeps its old tail when it was long enough |
| DiskBlock.ReadField | cmd/kateway/hh/disk/block.go:51-68 | a length-prefixed field read succeeds iff its data was read; the data then follows the 4-byte length it matches and is at most maxBlockSize |
| DiskBlock.Decode | cmd/kateway/hh/disk/block.go:50-88 | a frame read succeeds iff its value was read, a value is only read after its key, and never more bytes are consumed than exist |
| DiskBlock.ReadFieldBack | cmd/kateway/hh/disk/block.go:51-68 | a length-prefixed field that fits maxBlockSize is read back exactly, consuming 4 + its length bytes |
| DiskBlock.DecodeFrame | cmd/kateway/hh/disk/block.go:29-88 | round trip: decoding the frame written for (key, value), followed by anything, returns exactly key and value and consumes exactly the frame |
| DiskBlock.KeyLengthCorrupt | cmd/kateway/hh/disk/block.go:56-58 | a key length above maxBlockSize gives ErrSegmentCorrupt after 4 bytes, with nothing copied |
| DiskBlock.ValueLengthCorrupt | cmd/kateway/hh/disk/block.go:75-77 | a value length above maxBlockSize gives ErrSegmentCorrupt after the key was read and copied |
| DiskBlock.TruncatedFrame | cmd/kateway/hh/disk/block.go:114-124 | any strict prefix of a frame fails with EOF or UnexpectedEOF, consumes all of it and never yields a value |
| DiskBlock.RefillFacts | cmd/kateway/hh/disk/block.go:60-68 | a zero key length leaves b.key untouched; an empty slice takes the data as is |
| DiskBlock.StaleTrailingBytes | cmd/kateway/hh/disk/block.go:82-85 | reading the frame ([], [9]) into a block whose value was [1, 2, 3] leaves [9, 2, 3] |
| DiskBlock.Writer.Write | cmd/kateway/hh/disk/block.go:103 | w.Write stores what fits, reports the count, and errs on a short write iff the writer reports short writes |
| DiskBlock.Reader.ReadAtLeast | cmd/kateway/hh/disk/block.go:115 | io.ReadAtLeast fills dst[..n] from the reader when n bytes are left, otherwise consumes what is left and fails with ShortRead |
| DiskBlock.WriteBytes | cmd/kateway/hh/disk/block.go:102-112 | writeBytes succeeds iff the whole slice fit; otherwise it returns the writer's error or a short-write error, and the writer holds the part that fit |
| DiskBlock.ReadBytes | cmd/kateway/hh/disk/block.go:114-124 | readBytes succeeds iff n bytes were left; dst[..got] receives them and the rest of dst is untouched |
| DiskBlock.Block.Size | cmd/kateway/hh/disk/block.go:17-19 | size() is the length of the frame writeTo emits |
| DiskBlock.Block.KeyLen | cmd/kateway/hh/disk/block.go:21-23 | keyLen() is the key's uint32 length field |
| DiskBlock.Block.ValueLen | cmd/kateway/hh/disk/block.go:25-27 | valueLen() is the value's uint32 length field |
| DiskBlock.Block.WriteUint32 | cmd/kateway/hh/disk/block.go:97-100 | wbuf holds the big-endian bytes of v, and the write succeeds iff the writer had 4 bytes of room |
| DiskBlock.Block.WriteTo | cmd/kateway/hh/disk/block.go:29-48 | writeTo succeeds iff the whole frame fits; the writer then holds the frame, and otherwise exactly the prefix of the frame that fitted; the error is the writer's or a short write |
| DiskBlock.Block.ReadUint32 | cmd/kateway/hh/disk/block.go:90-95 | readUint32 returns the big-endian value of the next 4 bytes, or 0 and EOF/UnexpectedEOF when fewer are left |
| DiskBlock.Block.ReadKey | cmd/kateway/hh/disk/block.go:51-68 | the key half of readFrom agrees with the reference field reader on error and bytes consumed, and leaves b.key = Refill of the data read |
| DiskBlock.Block.ReadValue | cmd/kateway/hh/disk/block.go:70-85 | the value half of readFrom agrees with the reference field reader and leaves b.value = Refill of the data read |
| DiskBlock.Block.ReadFrom | cmd/kateway/hh/disk/block.go:50-88 | readFrom's error and consumption are the reference decoder's; b.key and b.value are the old slices refilled with what was decoded |
| DiskBlock.Block.ReadFromExact | cmd/kateway/hh/disk/block.go:60-85 | with slices cut to the declared lengths, the block holds exactly the decoded key and value |
| DiskBlock.WriteThenRead | cmd/kateway/hh/disk/block.go:29-88 | a block written to a writer with room and read back through the corrected reader yields the same key and value |
| DiskBlock.WriteThenReadFresh | cmd/kateway/hh/disk/block.go:29-88 | a block written to a writer with room and read back by readFrom as written into a block with empty slices (the zero block the pump starts with) yields the same key and value |
| DiskPump.NextBackoff | cmd/kateway/hh/disk/pump.go:65-68 | the doubled wait never exceeds maxBackoff or twice the old wait, and is exactly twice it below the cap |
| DiskPump.BackoffClosedForm | cmd/kateway/hh/disk/pump.go:65-68 | the wait after the i-th failed attempt (i >= 1) is min(initialBackoff * 2^i, maxBackoff) |
| DiskPump.RetryOutcome | cmd/kateway/hh/disk/pump.go:41-69 | the retry loop ends Published, QuitWaiting, GaveUp or NoAttempt according to the first attempt that succeeds or sees quit; one commit iff published; a dump iff published and (okN + 1) % dumpPerBlocks == 0 |
| DiskPump.RetryTrace | cmd/kateway/hh/disk/pump.go:41-69 | before the stopping attempt every attempt fails and is followed by the wait BackoffAt of its index; the number of publishes is the attempts up to and including the stopping one |
| DiskPump.RetryLength | cmd/kateway/hh/disk/pump.go:41-69 | at most maxRetries publishes per block; giving up takes exactly two calls per attempt |
| DiskPump.AllAttemptsFail | cmd/kateway/hh/disk/pump.go:41-69 | when every attempt fails, exactly maxRetries attempts are made, each followed by its backoff, with no commit, and the loop gives up |
| DiskPump.RetryCallKinds | cmd/kateway/hh/disk/pump.go:41-69 | the retry loop only publishes, waits, commits and dumps |
| DiskPump.RoundCounters | cmd/kateway/hh/disk/pump.go:38-80 | per turn, okN grows by the commits, there is one commit iff a block is delivered, a dump iff the new okN is a multiple of dumpPerBlocks, a rollback iff all attempts failed, and failN grows iff that rollback fails |
| DiskPump.NoDeliveryRound | cmd/kateway/hh/disk/pump.go:82-99 | a turn whose Next errs commits, dumps and rolls back nothing and leaves the counters alone |
| DiskPump.RoundDispatch | cmd/kateway/hh/disk/pump.go:26-99 | the pump returns NotOpen iff Next says the queue is not open; it returns Quit iff quit is seen at the top, during a backoff or while idle at end of queue; emptyInflight is cleared on a fetch, set at end of queue, and otherwise unchanged |
| DiskPump.RoundSkips | cmd/kateway/hh/disk/pump.go:93-99 | a corrupt segment or any other error from Next skips the segment exactly once; no turn calls wg.Done() |
| DiskPump.ErrorRoundSkips | cmd/kateway/hh/disk/pump.go:82-99 | in an error turn, the segment is skipped once iff the error is corruption or unknown |
| DiskPump.RoundKeeps | cmd/kateway/hh/disk/pump.go:36-100 | a turn only appends to the trace, accounts okN and failN by its commits and failed rollbacks, and never calls wg.Done() |
| DiskPump.PumpRun | cmd/kateway/hh/disk/pump.go:10-101 | over a whole run, okN counts the commits and failN the failed rollbacks; wg.Done() is called once iff the pump returned, and a return ends with the cursor dump and then wg.Done() |
| DiskPump.Queue.Deliver | cmd/kateway/hh/disk/pump.go:41-69 | the retry loop appends exactly the calls of the retry specification, counts the block iff published, and reports quit and give-up as that specification ends |
| DiskPump.Queue.Iterate | cmd/kateway/hh/disk/pump.go:26-100 | one turn of the loop leaves the counters, emptyInflight, the trace and the exit that RunRound gives |
| DiskPump.Queue.Pump | cmd/kateway/hh/disk/pump.go:10-101 | the whole loop, with its deferred epilogue, ends in the state RunPump gives |
| RedisInfo.Wrap64 | cmd/kguard/watchers/redis/info.go:171 | int64 addition agrees with the exact sum modulo 2^64 and equals it inside the int64 range |
| RedisInfo.WrapAdd | cmd/kguard/watchers/redis/info.go:169-173 | wrapping after every addition equals wrapping the exact sum once |
| RedisInfo.Find | cmd/kguard/watchers/redis/info.go:170 | the index found is the first occurrence of the pattern at or after `from`; None means there is none |
| RedisInfo.SplitN2 | cmd/kguard/watchers/redis/info.go:201 | SplitN(s, sep, 2) gives s alone iff sep does not occur, and otherwise the parts before and after the first occurrence, which rebuild s |
| RedisInfo.SplitAt | cmd/kguard/watchers/redis/info.go:201-206 | when sep first occurs right after `before`, SplitN splits there |
| RedisInfo.ParseDigits | cmd/kguard/watchers/redis/info.go:211 | the base-10 digit loop never yields more than 2^64 - 1 |
| RedisInfo.ParseUint10 | cmd/kguard/watchers/redis/info.go:211 | ParseUint(s, 10, 64) never yields more than 2^64 - 1 |
| RedisInfo.ParseInt64 | cmd/kguard/watchers/redis/info.go:211 | the empty string parses to 0; a positive result has no leading `-`, and a negative one has one |
| RedisInfo.ParseDigitsValue | cmd/kguard/watchers/redis/info.go:211 | on an all-digit string, the digit loop gives its value, or a range error when that exceeds 2^64 - 1 |
| RedisInfo.ParseUintDigits | cmd/kguard/watchers/redis/info.go:211 | ParseUint on a non-empty digit string gives its value or a range error |
| RedisInfo.ParseFormat | cmd/kguard/watchers/redis/info.go:211 | parsing the decimal printing of any int64 returns it |
| RedisInfo.ParseSaturates | cmd/kguard/watchers/redis/info.go:211 | a count above the int64 range parses, with the error dropped, to the largest int64 |
| RedisInfo.ParseSaturatesNegative | cmd/kguard/watchers/redis/info.go:211 | a negative count below the int64 range parses to the smallest int64 |
| RedisInfo.ParseJunk | cmd/kguard/watchers/redis/info.go:211 | a non-digit character after non-overflowing digits makes the parse a syntax error, read as 0 |
| RedisInfo.ParseSignedJunk | cmd/kguard/watchers/redis/info.go:211 | a leading sign followed by non-overflowing digits and then a non-digit (`-x`, `+12x`) is a syntax error, read as 0 |
| RedisInfo.ExtractKeysCount | cmd/kguard/watchers/redis/info.go:200-204 | a line without `keys=` counts 0 |
| RedisInfo.ExtractField | cmd/kguard/watchers/redis/info.go:200-212 | the count is ParseInt of exactly the text between the first `keys=` and the next `,` |
| RedisInfo.ExtractNoComma | cmd/kguard/watchers/redis/info.go:206-209 | with no `,` after `keys=`, the count is 0 even when digits follow |
| RedisInfo.ExtractRoundTrip | cmd/kguard/watchers/redis/info.go:200-212 | any int64 written between `keys=` and `,` is read back |
| RedisInfo.ExtractExample | cmd/kguard/watchers/redis/info.go:168 | the keyspace line quoted in the source yields 15500 |
| RedisInfo.SumOverRemove | cmd/kguard/watchers/redis/info.go:169 | the sum of the contributions does not depend on which entry is taken first (Go's map order is irrelevant) |
| RedisInfo.KeysTotalInsert | cmd/kguard/watchers/redis/info.go:169-172 | adding an entry to the map adds its extracted count to the total iff it is counted |
| RedisInfo.SumSeqIsSumOver | cmd/kguard/watchers/redis/info.go:169-173 | visiting every key of the map once, in any order, sums the contributions of the whole map |
| RedisInfo.Accumulate | cmd/kguard/watchers/redis/info.go:170-171 | one guarded `keysN += extractKeysCount(value)` keeps keysN equal to the wrapped sum of the entries visited |
| RedisInfo.SumKeys | cmd/kguard/watchers/redis/info.go:167-173 | the loop, in any map order, leaves keysN = the int64-wrapped sum of the counts of the `db*` entries holding `keys=` |

## Left out

- Time and channels are inputs of each `Round`: the `select` on `q.quit`, `time.After(backoff)` and `timer.After(pollEofSleep)`. The durations themselves are only recorded in the trace.
- Logging is left out. So are the block's key and value, which the pump hands to `SyncPub`. The publish result (partition, offset) is left out too; only its success is modelled.
- The queue's `Next`, `Rollback`, `skipCursorSegment` and the cursor's `commitPosition`/`dump` appear as calls in the trace. Their effect on the queue and the segment files is not part of this model.
- The pump's infinite loop is modelled over a finite script of turns. A script that runs out ends the model without an exit and without the deferred epilogue.
- Config: `initialBackoff`, `maxBackoff`, `defaultMaxRetries`, `dumpPerBlocks` and `maxBlockSize` are defined outside these files, so they are parameters. `dumpPerBlocks` must be non-zero, because Go's `%` by zero panics.
- DiskPump.Queue.Deliver: okN, failN and the backoff `time.Duration` are unbounded naturals. Their int64 overflow is not modelled.
- pump.go has no permanent-error bypass, such as committing past an invalid topic after a single attempt, so the model has none either. Every error is retried.
- An exhausted block is not counted as failed by itself. failN grows only when `Rollback` fails, and the model does the same.
- DiskBlock.Writer.Write: the writer fails only by running out of room. A Go io.Writer may also return an error after accepting all of `p`, which writeBytes would pass on; that case is not modelled.
- DiskBlock.Reader.ReadAtLeast: the reader fails only by running out of bytes (EOF/UnexpectedEOF). Other I/O errors, and readers that return fewer bytes than asked without an error, are not modelled.
- DiskBlock.Block.ReadFrom: `buf` is a separate array from the block's buffers, so aliasing between the caller's scratch buffer and `rbuf` is excluded. `buf` must hold maxBlockSize bytes, as Go's `buf[:int(keyLen)]` needs to avoid a panic.
- DiskBlock.Block.WriteTo: a key or value of 2^32 bytes or more gets a length field truncated to 32 bits, as Go's `uint32(len(...))` does. The round-trip lemmas assume `maxBlockSize < 2^32`.
- The magic byte of `block` is never read or written by these functions, so it is not modelled.
- RedisInfo.SplitN2 models `strings.SplitN(s, sep, 2)` only for a non-empty separator. Both call sites use one.
- RedisInfo.ParseInt64: underscores and other bases of strconv are not modelled, because base 10 is fixed here.
- RedisInfo.SumKeys: Go's random map iteration order is a nondeterministic choice (`:|`). The rest of updateRedisInfo (the Redis client, the other INFO fields, the float parses, the metrics and the mutex) is not part of this model.

## Findings

| source | as written | input that shows it | evidently intended | confidence | as-written member | corrected member |
|---|---|---|---|---|---|---|
| cmd/kateway/hh/disk/block.go:82-85 | readFrom copies into `b.value` but never shortens it, and pump.go reuses one `block` for every `Next`, so a shorter record after a longer one keeps the older record's trailing bytes (the same holds for `b.key`, lines 64-67, and a key length of 0 keeps the previous key) | value [1, 2, 3] in the block, then the frame ([], [9]) is read: b.value becomes [9, 2, 3] instead of [9] | the block holds exactly the record read (`b.value = b.value[:valueLen]`, likewise for the key) | not executed; medium | DiskBlock.StaleTrailingBytes | DiskBlock.Block.ReadFromExact |
