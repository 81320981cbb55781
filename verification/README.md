# Verification of the LoRa radio stack and its F´ framework parts

A LoRa link for F´: two SX1280 radios behind a driver and a Linux HAL, a node that sends with one and
receives with the other, and an adapter that makes the node a communication component of the flight
software. The radio stack sits on framework parts with state of their own: socket helper threads, rate
limiters, the CFDP checksum, files, data product containers, queues and maps.

The modules model the stateful core of this code and prove what holds of every run of it.

| module | models |
|---|---|
| `SocketHelper`, `SocketCalls` | threads that share one socket helper, as interleaved lock scopes; its single calls and loop rounds |
| `RadioDriver` | threads that call one SX128x driver: two mutexes, SPI transactions, interrupt flags, callbacks |
| `RadioCalls` | what each driver call does in every interleaving: effects in order, mode, transfers, flags |
| `RadioNode`, `RadioAdapter` | radios with their TX-enable line, the node, the communication adapter |
| `LostFlags` | driver runs under node runs: what a lost flag does to the amplifier line |
| `TokenBucket`, `RateLimiter` | rate control over whole runs and windows of runs |
| `Checksum`, `OsFile`, `Digests`, `Bytes` | chunked computation against one fold over the whole |
| `CrcDetection` | what the CRC-32 register does with each byte, and which changes it detects |
| `DpContainer` | the data product packet in its buffer |
| `YamlText`, `NodeConfig`, `NodeConfigYaml` | the configuration parser and a printer for its schema |
| `YamlLines` | what one line of a configuration text means: layout, comment, value, section |
| `FifoQueue`, `ArrayMap` | containers against sequences and finite maps |
| `Common` | numbers, options and arithmetic that several modules use |

Objects that the code updates in place are classes whose methods are proved against functions of the old
state; runs of them, and the thread systems, are functions or relations over those states. What the
outside decides (operating system results, chip flags, short reads, allocated buffers, callers' choices)
is left open, as arguments or as arbitrary choices.

Where comments and code disagree, the code is modelled:

- `TokenBucket.hpp:52` promises false for a time that goes back; the code grants while tokens remain
  (`BackwardTimeGrantsExactlyWithTokens`, `BackwardTimeGranted`).
- `File.hpp:419` says `readline` seeks back on an error; the position stays after the bytes read, so the
  promise holds exactly when there are none (`OsFile.File.ReadLine`, `ReadLineDoesNotSeekBack`).
- `readline`, `calculateCrc` and `computeHash` take a read that delivers nothing for the end of the file, which
  a read without waiting need not be (`ReadLineCutsShort`, `CrcCoversExactly`, `HashCoversExactly`).
- A `RateLimiter` with counter cycle 1 grants every second call (`CounterAlone`).
- The word loop of the checksum compares in 32 bits; `GuardExact` gives the exact bound on the length,
  which is 2^32 - 4 for aligned offsets and up to three more for others.
- `ValidateFileCommon.cpp:50-53` asserts that the loop bound is never reached; a device with short reads
  reaches it (`AssertsHoldExactly`, `ShortReadsFireAssert`).
- `ProcessIrqs` clears flags it has not read, and looks at the operating mode after its unlock; `DroppedExactly`
  and `HeededExactly` say exactly which flags are lost or not heeded, `LostEndKeepsLine` what follows.
- A socket closed during OPENING breaks the state machine of the socket helper; `SafeExactlyWithoutSuchClose`
  and `SenderClosesWhileOpening` say exactly when and that a plain sender can do it.
- A header line of the configuration with a comment after it is no header (`CommentedHeaderIsIgnored`); a timeout of
  2^32 ms or more is cut to 32 bits before it is limited (`NumbersRead`).
- A `TokenBucket` at interval 0 limits nothing (`ZeroIntervalGrantsAll`).
- The adapter's node is a static: it keeps the first configuration that loaded, also after a failed start
  (`RadioAdapter.RadioAdapter.EnsureNodeStarted`).

## Model

| member | source | states |
|---|---|---|
| `SocketHelper.StepKeepsInv` | lora-fprime-demo/lib/fprime/Drv/Ip/SocketComponentHelper.cpp:52-238 | Every step of every thread keeps: at most one thread between claim and commit of open(), the descriptor assert never fails, OPENING exactly while such a thread exists, and otherwise OPEN exactly when the descriptor is set; the one exception is a close() that lands in OPENING |
| `SocketHelper.RunsAreSafe` | lora-fprime-demo/lib/fprime/Drv/Ip/SocketComponentHelper.cpp:52-85 | The same invariant in every state of every interleaving of any number of open, close, send, recv, stop, read-loop and reconnect-loop threads in which no close() lands in OPENING |
| `SocketHelper.CloseAdmitsSecondOpener` | lora-fprime-demo/lib/fprime/Drv/Ip/SocketComponentHelper.cpp:52-64 | After a close() that lands in OPENING, the next caller of open() becomes a second opener |
| `SocketHelper.SafeExactlyWithoutSuchClose` | lora-fprime-demo/lib/fprime/Drv/Ip/SocketComponentHelper.cpp:151-156 | A run is safe for every caller that may enter open() along it if and only if no close() lands in OPENING |
| `SocketHelper.SenderClosesWhileOpening` | lora-fprime-demo/lib/fprime/Drv/Ip/SocketComponentHelper.cpp:121-144 | Such a close needs no call of close(): a run of one open and one send ends with m_open OPEN and no descriptor |
| `SocketHelper.OnlyTaskReopens` | lora-fprime-demo/lib/fprime/Drv/Ip/SocketComponentHelper.cpp:264-310 | In every run the reconnect loop and reopen() are on the reconnect task only |
| `SocketHelper.ReopenWindow` | lora-fprime-demo/lib/fprime/Drv/Ip/SocketComponentHelper.cpp:103-119 | Every reopen() began with a pending request and returns success or auto-connect-disabled only after meeting, while it ran, a socket open or being opened, or automatic opening off |
| `SocketHelper.RequestWithdrawnOnlyFor` | lora-fprime-demo/lib/fprime/Drv/Ip/SocketComponentHelper.cpp:252-310 | In every run a pending reconnect request disappears only by stopReconnect() or when the reconnect task uses the status of a reopen() that began with the request pending: success, having met a socket open or being opened while it ran, or auto-connect-disabled, having met automatic opening off |
| `SocketHelper.WaitIsBounded` | lora-fprime-demo/lib/fprime/Drv/Ip/SocketComponentHelper.cpp:326-363 | For every timeout and every positive interval, which may change but not fall below its bound, a wait takes fewer own steps than ceil(timeout / interval) + 4, whatever the other threads do |
| `SocketHelper.WaitEndsExactly` | lora-fprime-demo/lib/fprime/Drv/Ip/SocketComponentHelper.cpp:334-349 | A bound on the steps of every wait exists if and only if the interval is positive or the timeout is 0 |
| `SocketHelper.SenderSawOpen` | lora-fprime-demo/lib/fprime/Drv/Ip/SocketComponentHelper.cpp:121-138 | A sender goes on after waiting only if m_open was OPEN at the last check of its own wait |
| `SocketHelper.SendsOnClosedExactly` | lora-fprime-demo/lib/fprime/Drv/Ip/SocketComponentHelper.cpp:121-144 | A sender that waited calls the handler with descriptor -1, which the UDP handler asserts against, if and only if a close() landed between its check and its copy of the descriptor with no successful open after it |
| `SocketHelper.SendsOnClosedSocket` | lora-fprime-demo/lib/fprime/Drv/Ip/SocketComponentHelper.cpp:121-144 | A run of one open, one close and one send in which that happens, without any close() in OPENING |
| `SocketCalls.LostIsClosed` | lora-fprime-demo/lib/fprime/Drv/Ip/SocketComponentHelper.cpp:140-143 | In every interleaving: when the handler's send or receive of a thread reports a lost connection (the read loop takes every error for that), this thread closes the socket before its next other step, which leaves m_open NOT_OPEN and the descriptor -1 |
| `SocketCalls.ClosesExactlyWhenLost` | lora-fprime-demo/lib/fprime/Drv/Ip/SocketComponentHelper.cpp:195-226 | Between the handler call and its return to the caller or to the loop test a thread closes the socket if and only if the connection was lost |
| `SocketCalls.BackAlone` | lora-fprime-demo/lib/fprime/Drv/Ip/SocketComponentHelper.cpp:195-226 | If no other thread moves in between, the socket is closed when the thread is back after a lost connection, and nothing has changed otherwise |
| `SocketCalls.CloseHasReason` | lora-fprime-demo/lib/fprime/Drv/Ip/SocketComponentHelper.cpp:151-156 | In every run whoever closes was asked to, lost the connection, found none to receive from, or is the read loop ending because it was stopped or automatic opening is off |
| `SocketCalls.WaitEndsWhen` | lora-fprime-demo/lib/fprime/Drv/Ip/SocketComponentHelper.cpp:332-349 | In every run a wait polls on as long as its time is not up, a request is pending and the reconnect task is not stopped, and ends at the first poll that finds otherwise; its time is the sum of the intervals as they were |
| `SocketCalls.WaitReturns` | lora-fprime-demo/lib/fprime/Drv/Ip/SocketComponentHelper.cpp:351-363 | After its polls a wait succeeds exactly when its own check finds the socket open; a sender then sends and otherwise gives up, and the read loop ends exactly when the wait failed and automatic opening was off at its last check |
| `SocketHelper.DefaultWaitIsBounded` | lora-fprime-demo/lib/fprime/Drv/Ip/SocketComponentHelper.hpp:264 | With the default timeout and an interval not below the default a wait takes fewer than 104 own steps |
| `SocketCalls.CallAlone` | lora-fprime-demo/lib/fprime/Drv/Ip/SocketComponentHelper.cpp:52-205 | From every reachable state each public operation, run with nobody else moving, ends, and changes the shared members exactly as its one-line summary says: what open makes of both outcomes, when close, send and recv close, when send asks for a reconnect |
| `SocketCalls.TaskStarts` | lora-fprime-demo/lib/fprime/Drv/Ip/SocketComponentHelper.cpp:22-50 | From every state a task that is started clears its stop flag and enters its loop |
| `SocketCalls.RoundAlone` | lora-fprime-demo/lib/fprime/Drv/Ip/SocketComponentHelper.cpp:207-310 | The same for one round of the read loop (ends closed when stopped or without automatic opening; closes on every error; asks for a reconnect without a socket) and of the reconnect loop (ends when stopped; withdraws the request on success, on a socket open or being opened, and without automatic opening; keeps it after a failed open) |
| `RadioDriver.CallObeys` | Sx1280Radio/ThirdParty/sx128x/SX128x.cpp:60-182 | Every driver call, whatever follows it: IOLock2 only with no lock held, IOLock never retaken, transfers and busy waits under IOLock, flags read under IOLock2 cleared before its release, callbacks with no lock held |
| `RadioDriver.RunsKeepInv` | Sx1280Radio/ThirdParty/sx128x/SX128x.cpp:961-984 | In every interleaving, callbacks making driver calls included, each thread obeys this with the locks it really holds, and flags raised, read and dispatched are kept apart |
| `RadioDriver.SectionsExclude` | Sx1280Radio/ThirdParty/sx128x/SX128x.cpp:1444-1627 | In every reachable state at most one thread is inside the sections of each lock, sections being read off the program text |
| `RadioDriver.TransferInOwnSection` | Sx1280Radio/ThirdParty/sx128x/SX128x.cpp:1473-1627 | An SPI transfer starts only inside the own IOLock section and while no other thread is inside one |
| `RadioDriver.LocksTakenInOrder` | Sx1280Radio/ThirdParty/sx128x/SX128x.cpp:71-182 | No thread retakes a lock it holds, and IOLock2 is never taken while holding IOLock |
| `RadioDriver.NoDeadlock` | Sx1280Radio/ThirdParty/sx128x/SX128x.cpp:1444-1627 | While any call is unfinished, some thread can go on, or the holder of IOLock waits for nothing but the BUSY pin |
| `RadioDriver.FlagsDispatchedAtMostOnce` | Sx1280Radio/ThirdParty/sx128x/SX128x.cpp:961-984 | Each raised interrupt flag is dispatched by at most one ProcessIrqs, with the chip raising flags at any step |
| `RadioDriver.FlagInOnePlace` | Sx1280Radio/ThirdParty/sx128x/SX128x.cpp:961-984 | In every run each flag ever raised is in exactly one place: raised and unread, in the hand of one ProcessIrqs, dispatched, or dropped |
| `RadioDriver.DroppedExactly` | Sx1280Radio/ThirdParty/sx128x/SX128x.cpp:494-501 | A flag is dropped if and only if a clear met it raised and in nobody's hand |
| `RadioDriver.DispatchedOnceUnlessCleared` | Sx1280Radio/ThirdParty/sx128x/SX128x.cpp:961-984 | A flag the chip and the threads are done with was dispatched if and only if no clear met it raised and unread |
| `RadioDriver.FlagLostInProcessIrqs` | Sx1280Radio/ThirdParty/sx128x/SX128x.cpp:979-984 | A run of one ProcessIrqs in which the chip raises a flag between the read and the clear, and the flag is lost |
| `RadioDriver.HeededExactly` | Sx1280Radio/ThirdParty/sx128x/SX128x.cpp:984-1134 | A dispatch hands on exactly the flags of its own earlier read, and a TX_DONE or RX_DONE that belonged to the mode at that read is heeded if and only if no assignment in between left another operating mode |
| `RadioDriver.NotHeededRun` | Sx1280Radio/ThirdParty/sx128x/SX128x.cpp:984-1134 | A run in which RX_DONE is raised and read in receive mode, SetTx comes in between, and the flag is dispatched in transmit mode |
| `RadioCalls.CallDoes` | Sx1280Radio/ThirdParty/sx128x/SX128x.cpp:60-182 | In every interleaving, with the locks as they really are held, a call from its start to its end has exactly its listed effects in order: busy waits that end with BUSY low, transfers, hooks by name, mode assignments, dispatch, each with IOLock2 held or not |
| `RadioCalls.StretchDoes` | Sx1280Radio/ThirdParty/sx128x/SX128x.cpp:60-182 | The same for a call made from inside a callback, whatever follows it |
| `RadioCalls.CallLeavesMode` | Sx1280Radio/ThirdParty/sx128x/SX128x.cpp:60-175 | Every call, in every interleaving in which no other thread assigns the mode meanwhile: SendPayload and SetTx leave transmit mode, SetRx and SetRxDutyCycle receive mode, SetStandby, SetCad and SetSleep theirs, SetFs and SetCadParams theirs, and all others the mode that was |
| `RadioCalls.CallTransfers` | Sx1280Radio/ThirdParty/sx128x/SX128x.cpp:60-182 | Every call, in every interleaving, makes its number of SPI transfers: 2 for SetTx and SetRx, 3 for SendPayload, one more of each when ranging, 2 for ProcessIrqs, none for Reset |
| `RadioCalls.CallClearsExactly` | Sx1280Radio/ThirdParty/sx128x/SX128x.cpp:92-138 | SetTx, SetRx, SendPayload, ProcessIrqs and a plain clear, and no other calls, clear the interrupt flags, and no flag raised before such a call is still raised after it |
| `RadioCalls.CallAlone` | Sx1280Radio/ThirdParty/sx128x/SX128x.cpp:60-182 | From every reachable state with free locks and a ready chip each call, run with nobody else moving, ends with both locks free, in its mode, with no raised flags if it clears them and the same flags otherwise |
| `LostFlags.InFlightExactly` | Sx1280Radio/ThirdParty/sx128x/SX128x.cpp:1118-1131 | After an accepted send a transmission is in flight exactly as long as no poll sees TX_DONE or a timeout |
| `LostFlags.LostEndKeepsLine` | Sx1280Radio/Hal/LinuxSx1280Radio.cpp:450-493 | If the driver dropped every flag that would end the transmission, an AssertDuringTxOnly line stays asserted after an accepted send, however often the node polls |
| `TokenBucket.TokenBucket.Replenish` | lora-fprime-demo/lib/fprime/Utils/TokenBucket.cpp:70-82 | The loop stops at any setting, also interval 0, and its result is the closed form min(maxTokens, tokens + rate * floor((t - time) / interval)), with the time at t when full and at the last whole interval otherwise |
| `TokenBucket.TokenBucket.Trigger` | lora-fprime-demo/lib/fprime/Utils/TokenBucket.cpp:68-92 | Grants exactly when the replenished bucket has a token, and takes one |
| `TokenBucket.TokensPaidByTime` | lora-fprime-demo/lib/fprime/Utils/TokenBucket.cpp:68-92 | From any call on, grants and tokens left are paid for by tokens there and rate per whole interval that the bucket time has moved; that time never goes back |
| `TokenBucket.WholeRunBound` | lora-fprime-demo/lib/fprime/Utils/TokenBucket.cpp:68-92 | Grants so far plus tokens left never exceed start tokens + rate * floor((latest time - start time) / interval), for times in any order |
| `TokenBucket.OrderedRunBound` | lora-fprime-demo/lib/fprime/Utils/TokenBucket.cpp:68-92 | The same bound at the time of the last call, for times in order that have reached the start time |
| `TokenBucket.WindowBound` | lora-fprime-demo/lib/fprime/Utils/TokenBucket.cpp:68-92 | Grants among calls i .. j never exceed max(maxTokens, start tokens) + rate * ceil((t_j - t_i) / interval), for any earlier history |
| `TokenBucket.BackwardTimeGrantsExactlyWithTokens` | lora-fprime-demo/lib/fprime/Utils/TokenBucket.cpp:68-92 | In every run a call at a time before that of any earlier call is granted exactly when a token is left; it adds none and does not move the bucket time |
| `TokenBucket.BackwardTimeGranted` | lora-fprime-demo/lib/fprime/Utils/TokenBucket.hpp:52 | The promise of the header comment fails: a concrete bucket grants a call and then one at an earlier time |
| `TokenBucket.TokensLeaveByGrants` | lora-fprime-demo/lib/fprime/Utils/TokenBucket.cpp:84-91 | In every run, at any settings and for times in any order, tokens leave the bucket only by grants: grants among calls i .. n and tokens left make up at least the tokens before call i, and exactly those at rate 0 |
| `TokenBucket.BurstGrantsFirst` | lora-fprime-demo/lib/fprime/Utils/TokenBucket.cpp:68-92 | Of m calls at one time exactly the first min(m, tokens after replenishing) are granted, each taking one token |
| `TokenBucket.ZeroIntervalGrantsAll` | lora-fprime-demo/lib/fprime/Utils/TokenBucket.cpp:74-78 | At interval 0 and a positive rate every call that does not go back in time is granted, if a token can be held |
| `TokenBucket.FullExactly` | lora-fprime-demo/lib/fprime/Utils/TokenBucket.cpp:70-82 | A bucket that was not full is full at t if and only if t >= time + interval * ceil(missing tokens / rate), and never holds more |
| `TokenBucket.NothingWithheld` | lora-fprime-demo/lib/fprime/Utils/TokenBucket.cpp:68-92 | While a bucket does not fill up, the bound of `TokensPaidByTime` is met exactly: every whole interval up to the last call has brought its tokens |
| `RateLimiter.RateLimiter.Trigger` | lora-fprime-demo/lib/fprime/Utils/RateLimiter.cpp:55-88 | Grants when no cycle is set or when the counter or time criterion holds, and the new members follow |
| `RateLimiter.MembersRememberLastGrant` | lora-fprime-demo/lib/fprime/Utils/RateLimiter.cpp:115-138 | In every run from reset the counter is the distance to the last grant (0 at a full period) and the time is the time of that grant |
| `RateLimiter.GrantRule` | lora-fprime-demo/lib/fprime/Utils/RateLimiter.cpp:55-113 | In every run from reset: the first call is granted, and a later one exactly when a full period of calls or the time cycle has passed since the last grant |
| `RateLimiter.NoCycleGrantsAll` | lora-fprime-demo/lib/fprime/Utils/RateLimiter.cpp:66-68 | With neither cycle set every call is granted |
| `RateLimiter.CounterAlone` | lora-fprime-demo/lib/fprime/Utils/RateLimiter.cpp:115-128 | With a counter cycle N alone, call k is granted if and only if max(N, 2) divides k |
| `RateLimiter.GapBetweenGrants` | lora-fprime-demo/lib/fprime/Utils/RateLimiter.cpp:55-88 | Neighbouring grants are at most max(N, 2) calls apart, and a shorter gap spans the time cycle |
| `Checksum.Checksum.AddByteAtOffset` | lora-fprime-demo/lib/fprime/CFDP/Checksum/Checksum.cpp:90-94 | Adds the byte at its weight modulo 2^32 |
| `Checksum.Checksum.AddWordAligned` | lora-fprime-demo/lib/fprime/CFDP/Checksum/Checksum.cpp:72-76 | Adds four bytes that start a word of the file, each at the weight of its file position |
| `Checksum.Checksum.AddWordUnaligned` | lora-fprime-demo/lib/fprime/CFDP/Checksum/Checksum.cpp:78-88 | Adds up to three bytes at their weights, from a position cut to 8 bits and across a word boundary |
| `Checksum.Checksum.Update` | lora-fprime-demo/lib/fprime/CFDP/Checksum/Checksum.cpp:49-70 | Head, words and tail together add the weighted sum of the piece, for exactly the lengths at which the 32-bit guard is right |
| `Checksum.TruncationKeepsPlace` | lora-fprime-demo/lib/fprime/CFDP/Checksum/Checksum.cpp:56 | Cutting a position to 32 and then to 8 bits keeps its place in the word |
| `Checksum.GuardExact` | lora-fprime-demo/lib/fprime/CFDP/Checksum/Checksum.cpp:61 | The guard index + 4 <= length in 32-bit arithmetic is right at every index the loop can reach if and only if length < 2^32 - 4 + (bytes before the first word boundary) |
| `Checksum.DeliverPieces` | lora-fprime-demo/lib/fprime/CFDP/Checksum/Checksum.cpp:49-94 | Updating a new checksum with the pieces of any cut of any file, in any order, leaves the sum of byte_i * 256^(3 - i mod 4) modulo 2^32, for pieces at 32-bit offsets and below the length of GuardExact |
| `Checksum.ChecksumIsWordSum` | lora-fprime-demo/lib/fprime/CFDP/Checksum/Checksum.cpp:49-94 | For every file that sum is the sum of its big-endian 32-bit words, the last one filled up with zeros |
| `OsFile.File.Read` | lora-fprime-demo/lib/fprime/Os/File.cpp:172-185 | Everything, a part, nothing although there is something, or a failure after some bytes, as the device decides; exactly those bytes are copied and the position moves by them |
| `OsFile.File.Seek` | lora-fprime-demo/lib/fprime/Os/File.cpp:116-127 | Moves exactly when the device can be positioned and the target is not negative |
| `OsFile.File.SeekAbsolute` | lora-fprime-demo/lib/fprime/Os/File.cpp:129-154 | Reaches any unsigned 64-bit offset, although each seek takes a signed one |
| `OsFile.File.ReadLine` | lora-fprime-demo/lib/fprime/Os/File.cpp:255-304 | For every device: success returns a part of the line from its start, which is the whole line if and only if it ends in a newline or at the end of the file, so always on a device that never delivers nothing early; OTHER_ERROR exactly when the buffer fills without a newline, a device error exactly when a read fails before that; after an error the position is after the bytes copied; after success it is right after them unless the seek back fails |
| `OsFile.File.ScanLine` | lora-fprime-demo/lib/fprime/Os/File.cpp:277-303 | The chunk loop ends as the reads decide (failure, nothing delivered, newline, buffer full), with the buffer, size and position that belong to that end |
| `OsFile.File.ScanChunk` | lora-fprime-demo/lib/fprime/Os/File.cpp:278-300 | One round: the bytes copied so far grow by what the device delivers, also by none, and the first newline among them is found |
| `OsFile.ReadLineDoesNotSeekBack` | lora-fprime-demo/lib/fprime/Os/File.cpp:277-303 | Two concrete calls that fail and do not seek back: a buffer that is too short, and a device that fails after one byte |
| `OsFile.ReadLineCutsShort` | lora-fprime-demo/lib/fprime/Os/File.cpp:285-288 | A concrete call that succeeds with a part of the line, on a device that delivers nothing before the end |
| `OsFile.ReadLineSkips` | lora-fprime-demo/lib/fprime/Os/File.cpp:298 | A concrete call that succeeds with the position past the line, on a device whose seek fails |
| `OsFile.FindNewline` | lora-fprime-demo/lib/fprime/Os/File.cpp:290-300 | Finds the first newline of the part just read, or that there is none |
| `OsFile.LinesConcatenate` | lora-fprime-demo/lib/fprime/Os/File.cpp:255-304 | The lines of a byte sequence from any position concatenate to the rest of the sequence |
| `OsFile.ReadLines` | lora-fprime-demo/lib/fprime/Os/File.cpp:255-304 | For every device with seeks, what successive readlines return concatenates to the file up to there; once the end is reached they are the lines of the file if and only if all but the last end in a newline; on a device that never delivers nothing early they are always lines, and all of them if no call fails |
| `OsFile.File.IncrementalCrc` | lora-fprime-demo/lib/fprime/Os/File.cpp:229-246 | Folds exactly the bytes of a successful read into the running CRC; a failing read leaves the CRC alone |
| `OsFile.File.CalculateCrc` | lora-fprime-demo/lib/fprime/Os/File.cpp:211-227 | For every device and position: one fold over exactly the bytes up to the first read that is no whole chunk; fails exactly when a read before that fails, and then the fold over the bytes before stays in the object; past the end nothing is folded |
| `OsFile.FullReadsReachEnd` | lora-fprime-demo/lib/fprime/Os/File.cpp:211-227 | With full reads that do not fail it covers the whole rest of the file |
| `OsFile.CrcCoversExactly` | lora-fprime-demo/lib/fprime/Os/File.cpp:229-246 | It covers the rest of the file on every device that does not fail if and only if there is no rest |
| `Bytes.CrcJoins` | lora-fprime-demo/lib/fprime/Utils/Hash/libcrc/lib_crc.c:272-285 | The CRC of two neighbouring ranges in turn is the CRC of the whole range |
| `Bytes.CrcOfSlice` | lora-fprime-demo/lib/fprime/Utils/Hash/libcrc/lib_crc.c:272-285 | The CRC depends on the bytes only, not on where they lie |
| `Bytes.BigEndianAt` | lora-fprime-demo/lib/fprime/Fw/Types/Serializable.cpp:83-140 | Byte i of a serialized number counts 256 to the power of the bytes after it |
| `CrcDetection.UpdateIsRounds` | lora-fprime-demo/lib/fprime/Utils/Hash/libcrc/lib_crc.c:272-285 | One table-driven step is eight rounds of the shift register with the byte mixed in |
| `CrcDetection.ByteMatters` | lora-fprime-demo/lib/fprime/Utils/Hash/libcrc/lib_crc.c:272-285 | From one register two bytes lead to one register if and only if they are equal |
| `CrcDetection.RegisterMatters` | lora-fprime-demo/lib/fprime/Utils/Hash/libcrc/lib_crc.c:272-285 | With one byte two registers lead to one register if and only if they are equal |
| `CrcDetection.ChangeDetected` | lora-fprime-demo/lib/fprime/Utils/Hash/libcrc/lib_crc.c:272-285 | Two byte strings of one length that differ at most within four neighbouring bytes have one digest if and only if they are equal |
| `CrcDetection.DetectsExactly` | lora-fprime-demo/lib/fprime/Utils/Hash/libcrc/lib_crc.c:272-285 | All changes confined to so many neighbouring bytes are detected if and only if the width is at most four |
| `CrcDetection.FiveBytesCollide` | lora-fprime-demo/lib/fprime/Utils/Hash/libcrc/lib_crc.c:66 | Two strings of five bytes with one digest |
| `CrcDetection.CheckValue` | lora-fprime-demo/lib/fprime/Utils/Hash/libcrc/lib_crc.c:400-430 | The digest of the characters 1 to 9 is the check value of CRC-32, 0xCBF43926 |
| `Digests.Hash.Update` | lora-fprime-demo/lib/fprime/Utils/Hash/libcrc/lib_crc.c:272-285 | The loop over a block is the CRC fold over it |
| `Digests.DigestFile` | lora-fprime-demo/lib/fprime/Utils/CRCChecker.cpp:52-81 | Whole blocks and the rest together give the digest of the whole file, for every length; succeeds if and only if the device delivers every block in full |
| `Digests.FullReadsDeliver` | lora-fprime-demo/lib/fprime/Utils/CRCChecker.cpp:52-81 | Full reads that do not fail deliver every block of every file |
| `Digests.CreateChecksumFile` | lora-fprime-demo/lib/fprime/Utils/CRCChecker.cpp:24-104 | On success the hash file holds the digest of the whole file and no other file changed; on a reliable disk it succeeds exactly when every block is delivered and reports a read failure otherwise; a missing file is reported as such |
| `Digests.ReadChecksum` | lora-fprime-demo/lib/fprime/Utils/CRCChecker.cpp:106-131 | On success the first four bytes of the hash file; otherwise an open or read failure; on a reliable disk it succeeds exactly when four bytes are there and delivered |
| `Digests.VerifyChecksum` | lora-fprime-demo/lib/fprime/Utils/CRCChecker.cpp:133-205 | Expected is the stored value, actual the digest of the whole file, and the check passes exactly when they are equal |
| `Digests.CreateThenVerify` | lora-fprime-demo/lib/fprime/Utils/CRCChecker.cpp:24-205 | Create and then verify on an unchanged file never reports a mismatch, and on a reliable disk both pass, with expected equal to actual, exactly when all reads are delivered in full |
| `Digests.CreateThenVerifyChanged` | lora-fprime-demo/lib/fprime/Utils/CRCChecker.cpp:133-205 | A file changed within four neighbouring bytes after its checksum was stored never passes, and on a reliable disk that delivers all reads the mismatch is reported |
| `Digests.ComputeHash` | lora-fprime-demo/lib/fprime/Os/ValidateFileCommon.cpp:8-60 | For every device: a closing assert fires if and only if more reads deliver something than size / 256 + 1; otherwise a failing read is reported, or the hash is that of the bytes before the first read that delivers nothing |
| `Digests.CoversWholeExactly` | lora-fprime-demo/lib/fprime/Os/ValidateFileCommon.cpp:34-46 | Those bytes are the whole file if and only if no read before its end fails or delivers nothing |
| `Digests.HashCoversExactly` | lora-fprime-demo/lib/fprime/Os/ValidateFileCommon.cpp:34-46 | On every device that does not fail the whole file is hashed if and only if the file is empty |
| `Digests.AssertsHoldExactly` | lora-fprime-demo/lib/fprime/Os/ValidateFileCommon.cpp:25-53 | The closing asserts hold on every device if and only if the file has at most one byte |
| `Digests.FullReadsSuffice` | lora-fprime-demo/lib/fprime/Os/ValidateFileCommon.cpp:25-53 | With full reads they hold for every file |
| `Digests.ShortReadsFireAssert` | lora-fprime-demo/lib/fprime/Os/ValidateFileCommon.cpp:50-53 | A file of two bytes delivered one at a time makes the closing assert fire |
| `Digests.EmptyReadHashesPrefix` | lora-fprime-demo/lib/fprime/Os/ValidateFileCommon.cpp:34-46 | A file of one byte on a device that has nothing yet: success with the hash of the empty file |
| `DpContainer.HeaderRoundTrip` | lora-fprime-demo/lib/fprime/Fw/Dp/DpContainer.cpp:38-120 | Reading a written header gives back every field, whatever bytes follow |
| `DpContainer.TimeRoundTrip` | lora-fprime-demo/lib/fprime/Fw/Dp/DpContainer.cpp:38-120 | The same for the time tag inside it |
| `DpContainer.FieldsAtOffsets` | lora-fprime-demo/lib/fprime/Fw/Dp/DpContainer.hpp:35-65 | Each field of a written header lies big-endian between its offset constant and the next |
| `DpContainer.TimeFieldsAtOffsets` | lora-fprime-demo/lib/fprime/Fw/Dp/DpContainer.cpp:38-120 | The same for the four parts of the time tag |
| `DpContainer.ParsesExactly` | lora-fprime-demo/lib/fprime/Fw/Dp/DpContainer.cpp:38-87 | Bytes parse to a header if and only if they are what writing this header gives |
| `DpContainer.SameHeader` | lora-fprime-demo/lib/fprime/Fw/Dp/DpContainer.cpp:38-87 | Parsing depends on the header bytes alone |
| `DpContainer.DpContainer.constructor` | lora-fprime-demo/lib/fprime/Fw/Dp/DpContainer.cpp:122-143 | Taking over a buffer of at least the minimum size leaves a packet without data that fits it |
| `DpContainer.DpContainer.RegionsApart` | lora-fprime-demo/lib/fprime/Fw/Dp/DpContainer.hpp:58-65 | For every data size that fits, header, header hash, data and data hash lie end to end and in bounds |
| `DpContainer.DpContainer.SerializeHeader` | lora-fprime-demo/lib/fprime/Fw/Dp/DpContainer.cpp:89-120 | Afterwards the buffer parses to this header, the header hash is right and the data region is untouched |
| `DpContainer.DpContainer.UpdateHeaderHash` | lora-fprime-demo/lib/fprime/Fw/Dp/DpContainer.cpp:154-175 | Makes the header hash right and changes no header or data byte |
| `DpContainer.DpContainer.WriteData` | lora-fprime-demo/lib/fprime/Fw/Dp/DpContainer.hpp:58-65 | Writing inside the data region keeps the header, its hash and the data hash bytes |
| `DpContainer.DpContainer.UpdateDataHash` | lora-fprime-demo/lib/fprime/Fw/Dp/DpContainer.cpp:194-222 | Makes the data hash right and changes nothing before it, so a right header hash stays right |
| `DpContainer.DpContainer.CheckHeaderHash` | lora-fprime-demo/lib/fprime/Fw/Dp/DpContainer.cpp:177-181 | Succeeds exactly when the stored header hash is the digest of the header bytes |
| `DpContainer.DpContainer.CheckDataHash` | lora-fprime-demo/lib/fprime/Fw/Dp/DpContainer.cpp:224-228 | Succeeds exactly when the stored data hash is the digest of the data bytes |
| `DpContainer.DpContainer.DeserializeHeader` | lora-fprime-demo/lib/fprime/Fw/Dp/DpContainer.cpp:38-87 | Succeeds exactly when the buffer parses, with all fields read; another descriptor changes no field |
| `DpContainer.PassOn` | lora-fprime-demo/lib/fprime/Fw/Dp/DpContainer.cpp:38-228 | A packet written by one container and taken over by another passes both hash checks and yields every header field and the data |
| `DpContainer.HashTellsApart` | lora-fprime-demo/lib/fprime/Fw/Dp/DpContainer.cpp:177-228 | Two regions that differ at most within four neighbouring bytes have one hash if and only if they are equal |
| `DpContainer.CheckChangedData` | lora-fprime-demo/lib/fprime/Fw/Dp/DpContainer.cpp:224-228 | After sealing, writing up to four neighbouring data bytes makes the data check fail if and only if the bytes changed |
| `DpContainer.CheckChangedHeader` | lora-fprime-demo/lib/fprime/Fw/Dp/DpContainer.cpp:177-181 | The same for the header and its check |
| `YamlText.TrimLoops` | Sx1280Radio/Config/NodeConfigYaml.cpp:33-43 | The two index loops remove all white space at both ends and nothing else |
| `YamlText.StoulDecimal` | Sx1280Radio/Config/NodeConfigYaml.cpp:61-68 | Parsing the decimal digits of any unsigned 64-bit number gives the number |
| `YamlText.StolSignedDecimal` | Sx1280Radio/Config/NodeConfigYaml.cpp:83-94 | The same for signed decimals |
| `YamlText.StoulExact` | Sx1280Radio/Config/NodeConfigYaml.cpp:61-68 | Parsing the decimal digits of any natural number: the number below 2^64 and a failure from there on; with a minus sign it wraps around |
| `YamlText.StolExact` | Sx1280Radio/Config/NodeConfigYaml.cpp:83-94 | Parsing the signed decimal of any integer: the number if it has 64 bits, else a failure |
| `YamlText.NumberExactly` | Sx1280Radio/Config/NodeConfigYaml.cpp:61-94 | There is a number to read if and only if the text begins with white space, perhaps a sign, and a digit |
| `YamlText.JunkIgnored` | Sx1280Radio/Config/NodeConfigYaml.cpp:61-94 | White space before a number, its plus sign and all that follows its digits do not matter |
| `NodeConfigYaml.LoadNodeConfig` | Sx1280Radio/Config/NodeConfigYaml.cpp:223-433 | The line loop computes the parse function of the whole text |
| `NodeConfigYaml.CleanIsClean` | Sx1280Radio/Config/NodeConfigYaml.cpp:287-294 | A key value never contains a comment sign or a newline |
| `NodeConfigYaml.ParseIsProducible` | Sx1280Radio/Config/NodeConfigYaml.cpp:223-433 | Whatever the text, the result has only enumeration values the parser knows, timeouts in 1000 us ticks and strings without comment sign or newline |
| `NodeConfigYaml.SkippedLineIsIgnored` | Sx1280Radio/Config/NodeConfigYaml.cpp:231-234 | A blank or comment line inserted between any two lines of any text changes nothing |
| `NodeConfigYaml.SkippedLastLineIsIgnored` | Sx1280Radio/Config/NodeConfigYaml.cpp:231-234 | Nor does one after the last line of any text, whether that ended in a newline or not |
| `NodeConfigYaml.LineKeepsOtherRadio` | Sx1280Radio/Config/NodeConfigYaml.cpp:299-351 | A line under one section never changes the other radio, and only its own header enters a radio section |
| `NodeConfigYaml.TxUntouched` | Sx1280Radio/Config/NodeConfigYaml.cpp:299-351 | Text without a tx header, met outside the tx section, never changes the tx radio |
| `NodeConfigYaml.RxUntouched` | Sx1280Radio/Config/NodeConfigYaml.cpp:299-351 | Text without an rx header, met outside the rx section, never changes the rx radio |
| `NodeConfigYaml.RadioRead` | Sx1280Radio/Config/NodeConfigYaml.cpp:299-351 | A printed radio read under either radio section gives that radio back, whatever the fields were before |
| `NodeConfigYaml.RoundTrip` | Sx1280Radio/Config/NodeConfigYaml.cpp:223-433 | Parsing the printed text of a configuration in schema order gives the configuration back |
| `NodeConfigYaml.RoundTripExact` | Sx1280Radio/Config/NodeConfigYaml.cpp:223-433 | The round trip holds if and only if the configuration is one that some text can produce, which is exactly the producible ones |
| `YamlLines.CommentAfterLine` | Sx1280Radio/Config/NodeConfigYaml.cpp:282-290 | For every parser state and every line without a comment: a comment put after it changes nothing, unless the line is a header, which then has no effect at all |
| `YamlLines.CommentChangesNothing` | Sx1280Radio/Config/NodeConfigYaml.cpp:282-290 | The same for whole texts: a comment after any line that is no header, also the last, changes nothing in the result |
| `YamlLines.CommentedHeaderIsIgnored` | Sx1280Radio/Config/NodeConfigYaml.cpp:236-277 | A header with a comment after it reads as if the line were not there, so the keys after it go to the section before |
| `YamlLines.KeyLineMeans` | Sx1280Radio/Config/NodeConfigYaml.cpp:279-294 | For every state, key, white space and rest of the line: a key line that is no header sets that key to what stands between the colon and the first comment sign, trimmed and unquoted |
| `YamlLines.LayoutDoesNotMatter` | Sx1280Radio/Config/NodeConfigYaml.cpp:279-294 | White space in the four places of a key line and a comment after it do not matter |
| `YamlLines.CleanIs` | Sx1280Radio/Config/NodeConfigYaml.cpp:287-294 | The value of a key line is what stands before the first comment sign, trimmed, without its quotes |
| `YamlLines.StripsQuotes` | Sx1280Radio/Config/NodeConfigYaml.cpp:96-101 | A text in double quotes gives what stands between them, and no other text changes |
| `YamlLines.Trimmed` | Sx1280Radio/Config/NodeConfigYaml.cpp:33-43 | A text is what trimming leaves between white space, and what is left has none at its ends |
| `YamlLines.UnknownKeyIgnored` | Sx1280Radio/Config/NodeConfigYaml.cpp:299-427 | A key that the current section does not know changes nothing |
| `YamlLines.NumbersRead` | Sx1280Radio/Config/NodeConfigYaml.cpp:61-82 | Every decimal number in every kind of number field: bytes up to 255; 64-bit numbers cut to 32 bits; timeouts limited to 65535 after that cut; all others leave the old value |
| `YamlLines.PowerRead` | Sx1280Radio/Config/NodeConfigYaml.cpp:83-94 | Every integer in the signed byte field: from -128 to 127, and all others leave the old value |
| `YamlLines.NoNumberRead` | Sx1280Radio/Config/NodeConfigYaml.cpp:61-94 | A value that does not begin with a number leaves every kind of number field as it was |
| `YamlLines.NamesRead` | Sx1280Radio/Config/NodeConfigYaml.cpp:49-165 | Unknown names stand for both directions, no behaviour of the TX-enable line and CRC on, and leave flags as they were; known ones do not |
| `YamlLines.HeadersLead` | Sx1280Radio/Config/NodeConfigYaml.cpp:236-277 | Where each of the nine header lines leads: three stay in the section and enter a subsection, the others enter a section without one, "radios:" none |
| `YamlLines.SectionLasts` | Sx1280Radio/Config/NodeConfigYaml.cpp:279-433 | A section lasts until the next header line; keys outside all sections have no effect |
| `YamlLines.NoHeaderGivesDefaults` | Sx1280Radio/Config/Sx1280Config.hpp:16-60 | A text without header lines gives the default configuration |
| `RadioNode.Radio.constructor` | Sx1280Radio/Hal/LinuxSx1280Radio.cpp:308-327 | A new radio has its line asserted exactly for StaticAsserted with a TX-enable pin |
| `RadioNode.Radio.SetTxEnable` | Sx1280Radio/Hal/LinuxSx1280Radio.cpp:329-339 | Asserts or deasserts with the right polarity; without a pin nothing happens |
| `RadioNode.Radio.HalPreTx` | Sx1280Radio/Hal/LinuxSx1280Radio.cpp:450-461 | Asserts for AssertDuringTxOnly and keeps the line otherwise |
| `RadioNode.Radio.HalPreRx` | Sx1280Radio/Hal/LinuxSx1280Radio.cpp:463-474 | Deasserts for AssertDuringTxOnly and keeps the line otherwise |
| `RadioNode.Radio.HalPostTx` | Sx1280Radio/Hal/LinuxSx1280Radio.cpp:476-493 | Puts the line to its resting state, or keeps it for None |
| `RadioNode.Radio.HalPostRx` | Sx1280Radio/Hal/LinuxSx1280Radio.cpp:495-509 | The same after a reception |
| `RadioNode.Radio.SetTx` | Sx1280Radio/ThirdParty/sx128x/SX128x.cpp:92-114 | Line and mode after the two hooks of SetTx |
| `RadioNode.Radio.SetRx` | Sx1280Radio/ThirdParty/sx128x/SX128x.cpp:116-138 | Line and mode after the two hooks of SetRx |
| `RadioNode.Radio.SendPayload` | Sx1280Radio/ThirdParty/sx128x/SX128x.cpp:568-572 | The payload goes to the radio and the radio transmits, with line and mode as after SetTx |
| `RadioNode.Radio.ProcessIrqs` | Sx1280Radio/ThirdParty/sx128x/SX128x.cpp:1079-1157 | rxDone is called exactly for RX_DONE without CRC error while receiving; the line comes to rest exactly when the flags end the current operation |
| `RadioNode.LoRaNode.StartNode` | Sx1280Radio/Node/LoRaNode.cpp:37-142 | Started exactly when it already was or both configurations are valid and no hardware call fails; started holds exactly when both radios exist |
| `RadioNode.LoRaNode.StopNode` | Sx1280Radio/Node/LoRaNode.cpp:144-148 | Both radios are gone and the node is off |
| `RadioNode.LoRaNode.SendPayload` | Sx1280Radio/Node/LoRaNode.cpp:150-172 | True exactly when started and at most 255 bytes; only a non-empty accepted payload reaches the transmitting radio |
| `RadioNode.LoRaNode.PollNode` | Sx1280Radio/Node/LoRaNode.cpp:174-181 | Polls both radios and delivers the packet exactly for a good RX_DONE |
| `RadioNode.LinesFollowTransmissions` | Sx1280Radio/Hal/LinuxSx1280Radio.cpp:308-339 | In every run of start, stop, send and poll: the receiving line is asserted exactly for StaticAsserted, the transmitting line exactly for StaticAsserted or, with AssertDuringTxOnly, from an accepted non-empty send until a poll sees TX_DONE or a timeout |
| `RadioNode.PayloadsReachRadio` | Sx1280Radio/Node/LoRaNode.cpp:150-172 | In every run of start, stop, send and poll the transmitting radio was given exactly the payloads of 1 to 255 bytes sent since the node is up, unchanged and in order, and the receiving radio none |
| `RadioNode.StartedExactly` | Sx1280Radio/Node/LoRaNode.cpp:37-148 | A node is up if and only if its configuration is usable and a start without hardware failure came after the last stop |
| `RadioAdapter.RadioAdapter.EnsureNodeStarted` | Sx1280Radio/ComAdapter/LoRaRadioAdapter.cpp:28-54 | The node is made once, from the first text that loads; started exactly when it already was or that configuration starts; a started node is left alone |
| `RadioAdapter.RadioAdapter.DataInHandler` | Sx1280Radio/ComAdapter/LoRaRadioAdapter.cpp:56-80 | Logs exactly the buffer return and then the one status, SUCCESS exactly when the node is up and the payload fits; the node's calls are a start if it was down and the configuration loads, then a send if it is up; the receive side is untouched |
| `RadioAdapter.RadioAdapter.ComStatusInit` | Sx1280Radio/ComAdapter/LoRaRadioAdapter.cpp:92-104 | Sends the initial SUCCESS exactly once, only with the node up |
| `RadioAdapter.RadioAdapter.RunHandler` | Sx1280Radio/ComAdapter/LoRaRadioAdapter.cpp:106-144 | Initial status at most once; the node's calls are a start if it was down and the configuration loads, then a poll if it is up; a good packet is received, and afterwards the queue is empty and every packet received had its buffer asked for |
| `RadioAdapter.RadioAdapter.AdapterLines` | Sx1280Radio/ComAdapter/LoRaRadioAdapter.cpp:28-144 | In every state of the adapter with the node up, both TX-enable lines are where the calls made through the adapter so far put them |
| `RadioAdapter.RadioAdapter.AdapterPayloads` | Sx1280Radio/ComAdapter/LoRaRadioAdapter.cpp:56-80 | In every state of the adapter with the node up every payload of 1 to 255 bytes that came while it was up has reached the transmitting radio, in order |
| `RadioAdapter.RadioAdapter.PollAndQueue` | Sx1280Radio/ComAdapter/LoRaRadioAdapter.cpp:117-118 | Each delivered packet goes to the end of the queue |
| `RadioAdapter.RadioAdapter.Drain` | Sx1280Radio/ComAdapter/LoRaRadioAdapter.cpp:121-143 | The loop empties the queue in order; each packet is forwarded with its own buffer if that is valid and large enough, and a valid smaller buffer is given back |
| `RadioAdapter.AnswerKeepsComValid` | Sx1280Radio/ComAdapter/LoRaRadioAdapter.cpp:56-80 | One more dataIn keeps what every run keeps: each dataIn followed by its own return and its one status, statuses one per dataIn plus at most one initial SUCCESS, the node never going down |
| `RadioAdapter.InitialKeepsComValid` | Sx1280Radio/ComAdapter/LoRaRadioAdapter.cpp:92-104 | The initial status keeps the same |
| `RadioAdapter.MorePackets` | Sx1280Radio/ComAdapter/LoRaRadioAdapter.cpp:121-143 | Packets that arrive later do not change what was forwarded or given back |
| `RadioAdapter.ForwardedExactly` | Sx1280Radio/ComAdapter/LoRaRadioAdapter.cpp:121-143 | Each packet that got a valid buffer large enough is forwarded in that buffer, unchanged and in its place among the others, and no other packet is |
| `RadioAdapter.BuffersConserved` | Sx1280Radio/ComAdapter/LoRaRadioAdapter.cpp:121-143 | Every valid allocated buffer is either forwarded or given back by run_handler, once |
| `FifoQueue.CircularIndex.SetModulus` | lora-fprime-demo/lib/fprime/Fw/DataStructures/CircularIndex.hpp:74-79 | The old value modulo the new modulus |
| `FifoQueue.CircularIndex.Increment` | lora-fprime-demo/lib/fprime/Fw/DataStructures/CircularIndex.hpp:82-88 | Adds any amount modulo the modulus, although the amount is reduced first |
| `FifoQueue.CircularIndex.Decrement` | lora-fprime-demo/lib/fprime/Fw/DataStructures/CircularIndex.hpp:92-98 | Incrementing by the same amount leads back |
| `FifoQueue.FifoQueue.constructor` | lora-fprime-demo/lib/fprime/Fw/DataStructures/ExternalFifoQueue.hpp:80-89 | A new queue over the storage is empty and valid, also with no storage |
| `FifoQueue.FifoQueue.Clear` | lora-fprime-demo/lib/fprime/Fw/DataStructures/ExternalFifoQueue.hpp:73-77 | Empty contents |
| `FifoQueue.FifoQueue.Enqueue` | lora-fprime-demo/lib/fprime/Fw/DataStructures/ExternalFifoQueue.hpp:105-116 | Succeeds exactly with room; contents grow at the right end; enqueueIndex = (dequeueIndex + size) mod capacity stays true |
| `FifoQueue.FifoQueue.At` | lora-fprime-demo/lib/fprime/Fw/DataStructures/ExternalFifoQueue.hpp:122-129 | The item at that place of the contents |
| `FifoQueue.FifoQueue.Dequeue` | lora-fprime-demo/lib/fprime/Fw/DataStructures/ExternalFifoQueue.hpp:133-143 | Takes the left item off; on an empty queue the output keeps its value |
| `FifoQueue.FifoQueue.CopyDataFrom` | lora-fprime-demo/lib/fprime/Fw/DataStructures/FifoQueueBase.hpp:61-72 | With separate storage the first min(size, capacity) items of the other queue in order, which is unchanged; over the same storage the items up to where the other queue wraps, over and over, so all of them if it does not wrap; copying onto itself does nothing |
| `FifoQueue.SharedCopyExact` | lora-fprime-demo/lib/fprime/Fw/DataStructures/FifoQueueBase.hpp:61-72 | A copy over the same storage is right for all contents if and only if the other queue does not wrap around |
| `FifoQueue.WrappedCopyGoesWrong` | lora-fprime-demo/lib/fprime/Fw/DataStructures/FifoQueueBase.hpp:61-72 | A concrete queue of two items that wraps around is copied wrongly over the same storage |
| `FifoQueue.FifoQueue.Refill` | lora-fprime-demo/lib/fprime/Fw/DataStructures/FifoQueueBase.hpp:66-70 | The copy loop appends the items one by one, also while it overwrites the storage it reads |
| `FifoQueue.RunQueue` | lora-fprime-demo/lib/fprime/Fw/DataStructures/ExternalFifoQueue.hpp:73-143 | Every run of enqueue, dequeue and clear on the ring is a run of the bounded sequence: the accepted items are those gone followed by the contents, in order, and dequeues deliver what the sequence delivers |
| `ArrayMap.ArrayMap.IndexOf` | lora-fprime-demo/lib/fprime/Fw/DataStructures/ArraySetOrMapImpl.hpp:178-185 | Finds a key exactly when the map has it |
| `ArrayMap.ArrayMap.FindValue` | lora-fprime-demo/lib/fprime/Fw/DataStructures/ArraySetOrMapImpl.hpp:174-187 | The value of the map at the key, or failure exactly when it is absent |
| `ArrayMap.ArrayMap.Insert` | lora-fprime-demo/lib/fprime/Fw/DataStructures/ArraySetOrMapImpl.hpp:199-217 | Succeeds exactly when the key is present or there is room; then the map with that binding, else the same map; keys stay distinct |
| `ArrayMap.ArrayMap.Remove` | lora-fprime-demo/lib/fprime/Fw/DataStructures/ArraySetOrMapImpl.hpp:221-237 | The map without the key and the value it had, although the last entry moves to the freed place |
| `ArrayMap.ArrayMap.Clear` | lora-fprime-demo/lib/fprime/Fw/DataStructures/ArraySetOrMapImpl.hpp:163 | The empty map |
| `ArrayMap.SwapOutRemoves` | lora-fprime-demo/lib/fprime/Fw/DataStructures/ArraySetOrMapImpl.hpp:225-234 | Swap-with-last removal keeps keys distinct and removes exactly the one binding |
| `ArrayMap.Iterate` | lora-fprime-demo/lib/fprime/Fw/DataStructures/ArraySetOrMapImpl.hpp:63-104 | Iterating from begin to end visits every key exactly once with its value |
| `ArrayMap.CopyDataFrom` | lora-fprime-demo/lib/fprime/Fw/DataStructures/MapBase.hpp:62-73 | An equal map if there is room, otherwise a sub-map of exactly capacity entries; the source is unchanged, also over the same storage |
| `ArrayMap.Refill` | lora-fprime-demo/lib/fprime/Fw/DataStructures/MapBase.hpp:67-72 | The copy loop inserts the first n entries the iterator meets |

## Left out

- Times: one time base in microseconds as integers; the unsigned 32-bit seconds of `Fw::Time`, its time bases and contexts are not modelled.
- Rate settings: the 32-bit widths of bucket and limiter settings are naturals; with the comparisons of the code no intermediate value overflows before the settings themselves would.
- Setters and the manual replenish of `TokenBucket` and `RateLimiter`: runs have fixed settings.
- SocketHelper: each lock scope is one atomic step; the connected callback, shutdown's effect on the peer, task creation and join, and retry counting inside the handlers are not modelled.
- RadioDriver: reads and writes of OperatingMode are atomic steps; exceptions from HAL hooks, ranging, BLE and floating-point calls are not modelled.
- RadioNode: the parameter values that start() writes to the radios are not modelled.
- RadioNode: only the LoRa branch of ProcessIrqs is modelled, without channel activity detection; the lines of a stopped node are released and not described; hardware exceptions outside start() are excluded.
- RadioAdapter: one adapter per process; port numbers, frame contexts and the byte contents of forwarded buffers beyond the payload are not modelled.
- OsFile.File.ReadLine: a file that cannot report its position fails at once; the uninitialised seek target of that path is not modelled. Seeks of one file all work or all fail.
- Digests: a file does not change between the query of its size and its last read; stored checksums use big-endian bytes, and the machine's own order would do as well, since the same order is used to read.
- DpContainer: default field widths of the configuration; enumerations refuse unknown codes on deserialization; field setters are not modelled.
- YamlText: `unsigned long` has 64 bits.
- NodeConfigYaml: the repository has no printer; the one here follows the section order of the schema file. Reading the file itself is not modelled.
- FifoQueue and ArrayMap: two containers have the same storage or separate ones; storages that overlap in part are not modelled, and sizes have no upper bound of 64 bits.
- Internal-storage wrappers of queues, maps and sets, stacks and arrays: easy members over the modelled ones.
- Red-black tree maps and sets, file packets, operating system delegates: not part of this model.
- Parameter packing, sync words and register tables of the SX128x: straight-line code.
- Topology, main programs, byte stream adapters: no core logic.
