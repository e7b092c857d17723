# Verified model of the AGV warehouse controller

This Dafny project models the two cores of the controller and proves properties of them over all
inputs and all runs: the wire protocol it speaks with vehicles, and the task and storage tables that
its services change.

**Wire protocol.** `Constants`, `Bits`, `Gf2`, `Crc`, `ByteProcess`, `FrameCodec`, `FutureManager`,
`SendTask`, `ResponseParser`. The CRC register is a number that the bit loop changes; what it computes
is stated in polynomials over GF(2), each the finite set of its exponents, with the generator of
ITU-T Recommendation V.41, section 2. A frame is a sequence of bytes. A connection is a buffer fed with
chunks. Requests, replies and timeouts are events of one event loop.

**Tables.** `Tables` holds the rows and the queries as maps and functions; a `Session` object carries the
rows that service methods update. `TaskOps` (creation and the choice of the next task), `UserTaskProxy`
(heartbeats), `UserTasks` (operator calls), `StorageService`, `AreaStatus`, `CameraTable`, `TaskTemplates`,
`Dispatch` and `TaskCache` are the services, each method proved against a function on rows.
`ExactlyOnce`, `Reservation`, `GoodsAccount`, `Stranded`, `TaskLife`, `Interleaving`, `CreationRace` and `Debounce`
state what whole runs of those functions do. `SnowFlake` is the id generator.

Conventions. Every service call is one atomic step on the tables, except dispatch in `Interleaving` and
creation in `CreationRace`. Redis is a map with expiry times and a
clock that only moves forward. A vehicle is an environment that may report anything; where a theorem needs
a vehicle to behave, the condition is a named predicate (`Allowed`). Exceptions are the `Raises` case of
`Outcome`, and a raising call leaves the rows as they were because its transaction is lost. Message numbers,
database keys and clock readings that the code draws at random are parameters.

Conditions that the whole-run theorems carry, because the code relies on them:

- `site_code` identifies a storage, so `storages` is a map.
- `Reservation`, `GoodsAccount`, `Stranded`: only single storages, none numbered 0, and no site in both the
  start and the end role (`Layout`). Vehicles report flags and fork states only for a task they are executing,
  pick before they place and finish after placing; repeats of the last report are always allowed
  (`FlagAllowed`, `ForkAllowed`). The steps are creation, dispatch, heartbeats, `cancel_task`, `set_task`,
  `del_user_task` and time.
- `CreationRace` keeps the layout and adds that every task leads from a start site to an end site; vehicles may
  report anything.
- `ExactlyOnce` needs nothing at all for heartbeat frames.
- `TaskLife` needs none of these: any heartbeat, cancellation, direct task or deletion may occur. It needs
  only that vehicles are sent what `edit_and_get_an_task` answers. `Interleaving` drops the atomicity of dispatch.
- `TaskTemplates.RunsStayExclusive` leaves out one call, adding over a running template;
  `AddKeepsIff` says exactly when that call does no harm.

Points where the code does something other than one might expect; the model follows the code:

- Resynchronisation needs no condition on a delimiter that straddles junk and frame: a junk prefix
  costs at most the first frame in every case (`Resynchronises`).
- The camera counters are keyed by camera number and slot number run together, so camera 1 slot 11 and
  camera 11 slot 1 share a counter (`AliasedSlots`). `DebouncedIff` gives the exact condition under which
  debouncing is per slot.
- `edit_storage_status` treats device "0" as no device, so camera 0 does not force a status
  (`CameraZeroIgnored`; `AppliedStatusIff` says when it has an effect after all).
- A handle of two characters shifts everything behind it by half a byte (`IntactIff`).
- Two vehicles can be sent one task, because dispatching awaits replies between picking and writing
  (`RaceSendsTwice`; `TwiceOnlyIfOverlapping` says when).
- Waiting calls are read newest first, but there is never more than one (`CallOrderIsMoot`).
- The storage row flag of a heartbeat is 0 or 2, never 1, because of the mask in the code. So the row flag only
  fills columns, and the missing repeat filter of that branch does no harm (`RowHalf`).
- Two form devices can reserve one counterpart storage, because creating awaits queries between choosing and
  writing (`RaceSharesStart`; `SharedOnlyIfOverlapping` says when).

## Model

| member | source | states |
|---|---|---|
| Crc.Crc16CcittFalse | app/tcp/crc.py:10-21 | the byte and bit loops return the remainder of 0xFFFF·x^n + m·x^16 on division by the generator, below 2^16 |
| Crc.FeedByte | app/tcp/crc.py:14-20 | eight passes of the inner loop feed the bits of a byte, most significant first |
| Crc.CalcCrc | app/tcp/crc.py:32-43 | the CRC of the first `crc_len` bytes; raises past the end, and a negative length reads nothing |
| Crc.IsPassCrc | app/tcp/crc.py:24-29 | with length 2 it accepts exactly when the CRC of the whole buffer is 0; for any length the last two bytes are compared with the CRC of what the length leaves; a buffer of one byte, an empty one and a negative length raise as in the code |
| Crc.CrcIsRemainder | app/tcp/crc.py:10-21 | for every preset and every bit string the register is a remainder modulo the generator |
| Gf2.RemainderUnique | app/tcp/crc.py:13-20 | that remainder is the only polynomial below degree 16 that qualifies |
| Crc.ZeroAfterOwnCrc | app/tcp/crc.py:24-29 | appending 16 bits brings the register to 0 exactly when they are the CRC |
| Crc.CrcOfWhole | app/tcp/crc.py:24-29 | the same for two bytes, high byte first |
| Crc.BurstDetected | app/tcp/crc.py:14-20 | two bit strings that differ only within 16 consecutive bits have equal CRCs only if they are equal |
| ByteProcess.HexStringToBytes | app/tcp/byte_process.py:18-32 | the filling loop yields the parsed pairs; None and empty give None; a bad digit raises; an odd last digit is dropped |
| ByteProcess.HexRoundTrip | app/tcp/byte_process.py:18-41 | parsing the printed hex gives the bytes back |
| ByteProcess.HexNormalises | app/tcp/byte_process.py:18-41 | printing the parsed hex gives the text in upper case |
| ByteProcess.BytesToIntLoop | app/tcp/byte_process.py:60-80 | the padding loop reverses a short input into the end of a zero buffer; lengths other than 1 to 4 give 0 |
| ByteProcess.IntRoundTrip | app/tcp/byte_process.py:44-80 | a field of 1 to 4 bytes decodes to the number modulo its width, negative numbers included |
| ByteProcess.ParsedIntRoundTrip | app/tcp/byte_process.py:44-80 | four bytes are re-encoded from the number they decode to |
| ByteProcess.ShortIsLittleEndian | app/tcp/byte_process.py:65-69 | fewer bytes than asked for are read least significant first |
| ByteProcess.FieldBeyond | app/tcp/byte_process.py:83-92 | a field that a frame is too short for reads as 0 |
| ByteProcess.SentFramePasses | app/tcp/byte_process.py:115-157 | the text built by the sender, spaces included, parses to body, CRC and frame end and passes the receiver's check under the same password |
| ByteProcess.SentWithoutPassword | app/tcp/byte_process.py:125-133 | without a password the CRC covers the body alone and the frame passes; the empty password puts zeros in its place |
| ByteProcess.CheckedCrcIff | app/tcp/byte_process.py:99-112 | accepted are exactly the frames of either kind whose two bytes before the end are the CRC of body and password, high byte first |
| ByteProcess.BurstInFrame | app/tcp/byte_process.py:142-157 | two equally long frames that differ within 16 consecutive bits of the body never both pass under one password, whatever its length |
| ByteProcess.FrameEndIff | app/tcp/byte_process.py:115-139 | for any hex text sent, the frame end survives parsing exactly if the text has an even number of digits |
| FrameCodec.FrameBuffer.Feed | app/tcp/frame_codec.py:27-42 | the cutting loop adds exactly the legal pieces that the new data completes to those of everything received before, and keeps the rest |
| FrameCodec.FrameBuffer.Pending | app/tcp/frame_codec.py:44-45 | everything received is accounted for: the bytes of all pieces, one more per piece, and the bytes pending |
| FrameCodec.ReadLoop | app/tcp/frame_server.py:43-51 | whatever the chunks, a connection yields the frames of the concatenated stream, and the bytes pending are those no piece took |
| FrameCodec.Decomposition | app/tcp/frame_codec.py:31-42 | pieces and rest are the stream, byte for byte; the rest holds no delimiter and each piece holds one only at its end |
| FrameCodec.DecompositionUnique | app/tcp/frame_codec.py:31-42 | no other list of such pieces and rest makes up the stream |
| FrameCodec.FeedAppend | app/tcp/frame_codec.py:27-42 | feeding s and then t equals feeding both at once |
| FrameCodec.ChunkingIndependent | app/tcp/frame_codec.py:27-42 | any sequence of chunks gives the frames and leftover of the whole stream |
| FrameCodec.ByteAccount | app/tcp/frame_codec.py:27-45 | bytes fed are bytes cut, kept or dropped, one more per piece, plus bytes pending |
| FrameCodec.StreamRoundTrip | app/tcp/frame_codec.py:15-42 | frames of legal length, each followed by A0, come out as that list with nothing left, under any chunking |
| FrameCodec.StreamKeepsLegal | app/tcp/frame_codec.py:17-42 | of any frames sent like this exactly those of 16 to 51199999 bytes come out |
| FrameCodec.Resynchronises | app/tcp/frame_codec.py:27-42 | after any junk all frames but the first come out; nothing is left over |
| FrameCodec.JunkEndingCleanly | app/tcp/frame_codec.py:27-42 | junk that ends at a delimiter costs no frame |
| FrameCodec.HeadStopsStraddle | app/tcp/frame_codec.py:15-37 | no delimiter straddles delimiter-free junk and a frame that begins with a frame head |
| FutureManager.KeyInjective | app/tcp/future_manager.py:21-23 | the key text, without separators, is equal exactly for equal message number, imei and function code |
| FutureManager.AgvChannelFutureManager.Create | app/tcp/future_manager.py:25-30 | registers a new pending future, replacing an older one of the key |
| FutureManager.AgvChannelFutureManager.Delete | app/tcp/future_manager.py:32-33 | pops the registered future |
| FutureManager.AgvChannelFutureManager.FutureComplete | app/tcp/future_manager.py:38-44 | resolves the registered future if it is still pending, and unregisters it |
| FutureManager.AgvChannelFutureManager.SendMsgSync | app/tcp/channel_manager.py:72-81 | a request takes the next future under its own key |
| FutureManager.AgvChannelFutureManager.ReceiveMsg | app/tcp/channel_manager.py:83-92 | imei 0 and function 00 complete nothing |
| FutureManager.CompletesIff | app/tcp/channel_manager.py:85-92 | in bytes: a frame completes unless its imei or its function code is zero |
| FutureManager.AgvChannelFutureManager.Expire | app/tcp/future_manager.py:46-52 | a timeout cancels a pending future but leaves its registration |
| FutureManager.AgvChannelFutureManager.SendTcpMsg | app/tcp/tcp_client.py:29-41 | a request is answered with a frame exactly if that frame is the first event with its bytes 4 to 13 before its timeout, and neither imei nor function code is zero |
| FutureManager.FateOfFuture | app/tcp/future_manager.py:25-52 | in every run the state of each future is a function of the events after its request |
| FutureManager.FateIsFirstReply | app/tcp/future_manager.py:38-44 | it is resolved with a message exactly if the first event that concerns it is that reply |
| FutureManager.ReplyIff | app/tcp/channel_manager.py:72-92 | the fate of a request in bytes, both directions |
| FutureManager.RegisteredIff | app/tcp/future_manager.py:25-44 | a key is registered exactly from a request until its reply, whatever times out |
| FutureManager.ResolvedOnlyByOwnReply | app/tcp/channel_manager.py:72-92 | a future is resolved exactly by a reply with its own imei, function and message number that precedes its timeout and any newer request of the key |
| FutureManager.OneReplyOneFuture | app/tcp/future_manager.py:38-44 | one frame resolves at most one future |
| FutureManager.ResolvedOnce | app/tcp/future_manager.py:38-52 | a future that is resolved or timed out stays so for the rest of the run |
| SendTask.TaskText | app/services/send_task.py:85-112 | the concatenated text of a task is the hex of its bytes, for any number of way points |
| SendTask.TaskFramePasses | app/services/send_task.py:96-112 | the task frame parses, passes the CRC check and has 35 + 7n bytes |
| SendTask.HeaderFields | app/services/send_task.py:100-103 | the receiver's offsets decode id and imei modulo 2^32 and the function code B2 |
| SendTask.LengthField | app/services/send_task.py:99-104 | the two-byte length field is 14 + 7n exactly for n up to 9360 |
| SendTask.StartFields | app/services/send_task.py:105-107 | start site, handle and height decode at their offsets |
| SendTask.EndFields | app/services/send_task.py:108-110 | end site, handle and height decode at their offsets, 0 where the row has none |
| SendTask.WayPointFields | app/services/send_task.py:85-94 | every way point decodes at offset 29 + 7k |
| SendTask.IntactIff | app/services/send_task.py:85-112 | for handles of any length in hex digits, the frame has its nominal size and its end exactly if every handle has one digit: the condition of the rows above |
| SendTask.TwoDigitHandle | app/services/send_task.py:105-112 | the failing input: a call with start handle 12 parses to a frame of nominal size without its end |
| SendTask.TaskHeader | app/services/send_task.py:100-103 | with any handles a task frame that parses begins with its header |
| SendTask.LockFrame | app/services/send_task.py:124-132 | the text of the lock parses to its frame, which passes the check |
| SendTask.StartFrame | app/services/send_task.py:114-122 | the text of the start command parses to its frame, which passes the check |
| ResponseParser.AcknowledgedMeans | app/tcp/response_parser.py:46-87 | a reply counts as success exactly if it has 16 bytes and FF in byte 15 for the seven codes listed there, otherwise FF in byte 14, or 03 for code 79 |
| Dispatch.CommandFields | app/services/send_task.py:114-132 | serial number, imei and function code of a command frame decode at their offsets |
| Dispatch.PlanIs | app/services/send_task.py:59-62 | the texts of a dispatch parse to lock if unlocked, task, start |
| Dispatch.IdleHeartbeatLeavesTasks | app/tcp/heartbeat_processor.py:66-80 | a heartbeat that leads to a dispatch changes no task, no filter and no single storage before it, at most it marks columns full |
| Dispatch.ShouldDispatchIff | app/services/send_task.py:23-33 | in bytes: seven states, a start site, no task flag and no fork state ask for work |
| Dispatch.MemoryFields | app/services/device_memory_table.py:21-41 | the vehicle and the lock bit that a dispatch goes by, at their bytes |
| Dispatch.SendOne | app/services/send_task.py:66-73 | success exactly if the text parses and the first event that concerns its request is an acknowledging reply |
| Dispatch.SendAll | app/services/send_task.py:64-73 | the frames written are a prefix of the plan; all is sent exactly if every frame is served like that |
| Dispatch.SendTaskService.DispatchTask | app/services/send_task.py:35-82 | not ready, busy or without a task it sends nothing; otherwise its best task is safely sent and its row becomes executing for this vehicle exactly if every frame is served; in all other cases no row changes; the busy sets are restored |
| Dispatch.SendTaskService.SendBest | app/services/send_task.py:56-80 | the same once the server is ready |
| Dispatch.DispatchSafety | app/services/send_task.py:59-77 | for every task, whatever its handles: lock if unlocked, task and start, in this order and each under its own message number, this imei and its function code, each drew a reply with the same three and FF at that code's place |
| Dispatch.PlanHeaders | app/services/send_task.py:59-62 | whatever the row holds, the frames of a dispatch begin with those headers in that order |
| Tables.RunningAt | app/repositories/task.py:41-60 | exactly the running templates that list the site in the role, without the excepted one |
| Tables.FindStorage | app/repositories/task.py:63-83 | a fitting storage of least order index, None exactly if none fits |
| Tables.SelectByDeviceFlag | app/repositories/task.py:145-156 | exactly the vehicle's tasks with the flag, ascending |
| Tables.SelectRunTaskByType | app/repositories/task.py:100-117 | the tasks of flag and type in ascending order, each as often as the vehicle is registered with its template |
| Tables.SelectByFlagType | app/repositories/task.py:119-131 | exactly the tasks of flag and type in the asked order |
| TaskOps.TaskOpService.CreateTask | app/services/task_op_service.py:40-150 | a busy form device is refused; the busy set is restored on every path; otherwise the rows change as creation says |
| TaskOps.TaskOpService.CreateLocked | app/services/task_op_service.py:46-148 | refusals leave the rows alone; success inserts one waiting task and reserves both storages |
| TaskOps.CreatedRow | app/services/task_op_service.py:97-137 | success adds exactly one row: waiting, from start to end with handles 1 and 2 at the heights of the storages, bound as the registrations of its template say, under the next id of the sequence if there are any |
| TaskOps.CreatedIsOffered | app/services/task_op_service.py:97-107 | the new task is offered to every vehicle if its template has none, and otherwise exactly to those of the template |
| TaskOps.TaskOpService.EditAndGetAnTask | app/services/task_op_service.py:153-183 | None for a busy vehicle, otherwise the best eligible task |
| TaskOps.PickTask | app/services/task_op_service.py:163-181 | the cascade of queries finds the least eligible task under (own, several vehicles, call, unassigned; then id), None exactly if there is none |
| TaskOps.PickPrefers | app/services/task_op_service.py:153-181 | from the rows: the oldest own task, else the oldest shared one, else the newest call, else the oldest for anyone, else none |
| TaskOps.QueryIsClass | app/services/task_op_service.py:163-180 | a query asked after empty ones lists exactly the tasks of its class in its order |
| TaskOps.FirstIsBest | app/services/task_op_service.py:163-180 | the first row of such a list is the best task |
| TaskOps.PickUnique | app/services/task_op_service.py:153-183 | the best task is unique |
| TaskOps.NeverAnothersTask | app/services/task_op_service.py:163-180 | the answer is unbound or the vehicle's own |
| UserTaskProxy.UserTaskProxyService.IsUpdateDb | app/services/user_task_proxy.py:36-46 | false exactly for a repeat of the vehicle's last (task, flag), which it records |
| UserTaskProxy.UserTaskProxyService.UpdateTask | app/services/user_task_proxy.py:122-217 | failed unlocks and repeats change nothing; flags 1 to 4 set the task's flag; finishing fills the end storage and marks a single one for ten seconds |
| UserTaskProxy.UserTaskProxyService.UpdateStorageState | app/services/user_task_proxy.py:222-301 | a fresh pick empties the start, a fresh place fills the end, both renew the key for a day |
| UserTaskProxy.UserTaskProxyService.ProcessHeartbeat | app/tcp/heartbeat_processor.py:66-69 | the task flag is applied before the fork state |
| UserTaskProxy.ReportFields | app/services/user_task_proxy.py:131-136 | every field of a heartbeat at its bytes |
| UserTaskProxy.ReportNames | app/services/user_task_proxy.py:231-235 | a frame built for a task and a vehicle is understood as theirs, modulo 2^32 |
| UserTaskProxy.FlagApplied | app/services/user_task_proxy.py:138-217 | from the bytes: when the task flag is ignored, and otherwise what it writes to the task, to its end storage and to the filter, and that nothing else changes |
| UserTaskProxy.ForkApplied | app/services/user_task_proxy.py:254-301 | the same for the fork state, with the key that holds for 86400 seconds |
| UserTaskProxy.RowFlagNeverEmpties | app/services/user_task_proxy.py:236-247 | the row flag is 0 or 2 for every frame, so it never empties a storage |
| Debounce.FinishHoldsCameras | app/services/user_task_proxy.py:167-173 | after a finish fills a storage no camera observation changes anything at it for ten seconds |
| ExactlyOnce.FramesExactlyOnce | app/services/user_task_proxy.py:36-301 | for any tables, columns included, and any heartbeat frames: the tables after the interleaved stream equal those after the collapsed stream with no filter at all |
| ExactlyOnce.HeartbeatsExactlyOnce | app/services/user_task_proxy.py:36-301 | the same for reports whose row flag is one that frames carry; the filters match the history, and columns once reported full stay full |
| ExactlyOnce.ExactlyOnceWithinLifetime | app/services/user_task_proxy.py:36-301 | within a day the tables equal those after the stream collapsed by the last (task, flag) of each device, the last fork state of each device and task, and the first naming of full columns; no key and no clock is involved |
| ExactlyOnce.OneHeartbeat | app/tcp/heartbeat_processor.py:66-69 | one heartbeat applies exactly the effects its history does not contain, and the filters keep matching the history |
| ExactlyOnce.FlagHalf | app/services/user_task_proxy.py:138-217 | the flag filter decides as the last counted report of the device does |
| ExactlyOnce.RowHalf | app/services/user_task_proxy.py:239-252 | the row flag has no filter and needs none: columns named before are full, and filling them again changes nothing |
| ExactlyOnce.ForkHalf | app/services/user_task_proxy.py:48-64 | the expiring key decides as the report that leads the repeats does |
| ExactlyOnce.LeaderIsLast | app/services/user_task_proxy.py:48-64 | that report shows the last fork state of the device and task |
| ExactlyOnce.ForkCollapse | app/services/user_task_proxy.py:254-301 | within a day a pick or place is applied exactly if it differs from the last one of its device and task |
| Reservation.ChoiceIsFree | app/services/task_op_service.py:59-93 | the counterpart has the other role and is full for a call, empty for storing |
| Reservation.CreateKeeps | app/services/task_op_service.py:46-148 | creation keeps every reservation |
| Reservation.DispatchKeeps | app/services/send_task.py:75-79 | dispatching the picked task keeps every reservation |
| Reservation.FlagKeeps | app/services/user_task_proxy.py:138-217 | so does an allowed task flag |
| Reservation.ForkKeeps | app/services/user_task_proxy.py:254-301 | so does an allowed pick or place |
| Reservation.DropKeeps | app/services/user_task.py:58-68 | so does whatever ends or deletes tasks: `cancel_task`, `set_task`, `del_user_task` |
| Reservation.StepKeeps | app/services/task_op_service.py:46-148 | so does every event |
| Reservation.InvMeans | app/services/task_op_service.py:139-145 | a storage held by an unfinished task is at "2" if it is the start and at "3" if it is the end, and has one holder |
| Reservation.ReservationsHold | app/services/task_op_service.py:46-148 | every allowed run keeps all reservations |
| Reservation.HeldExclusively | app/services/task_op_service.py:46-148 | from an idle plant, at any point of any allowed run, what a task holds has the reserved status and no other holder |
| GoodsAccount.CreateAccount | app/services/task_op_service.py:139-145 | creation changes the goods only by the arrival or removal announced at its site |
| GoodsAccount.FlagMovesNothing | app/services/user_task_proxy.py:158-177 | an allowed finish finds its end storage full already |
| GoodsAccount.FlagAccount | app/services/user_task_proxy.py:153-214 | only a failure or cancellation with goods on the fork loses count of them |
| GoodsAccount.ForkAccount | app/services/user_task_proxy.py:263-301 | picking and placing move goods without changing their number |
| GoodsAccount.CancelAccount | app/services/user_task.py:58-68 | cancelling waiting tasks moves no goods |
| GoodsAccount.SetAccount | app/services/user_task.py:315-321 | ending a task from outside loses count of goods exactly when they are on the fork of a vehicle that is not on the task |
| GoodsAccount.DeleteAccount | app/services/user_task.py:428-432 | deleting a task loses count of goods exactly when they are on the fork |
| GoodsAccount.StepAccount | app/services/user_task_proxy.py:138-301 | every event changes the goods by its delta |
| GoodsAccount.GoodsConserved | app/services/user_task_proxy.py:138-301 | over every allowed run goods in storages and on forks are those at the start plus the deltas |
| Stranded.CancelStrands | app/services/user_task.py:58-68 | cancelling a waiting task leaves both its storages reserved for nobody |
| Stranded.FailureStrands | app/services/user_task_proxy.py:190-214 | so does a vehicle that reports failure or cancellation: the start unless picked, the end unless placed |
| Stranded.SetTaskStrands | app/services/user_task.py:315-321 | so does ending a task from outside |
| Stranded.DeletionStrands | app/services/user_task.py:428-432 | so does deleting an unfinished task |
| Stranded.StrandedStays | app/services/task_op_service.py:47-93 | such a storage keeps its status through every allowed run in which no task is created from its own site |
| UserTasks.UserTaskService.CancelTask | app/services/user_task.py:58-68 | every waiting task of the vehicle becomes "7", a missing imei is refused |
| UserTasks.UserTaskService.CallDeviceTask | app/services/user_task.py:176-208 | refused without a site or while a call is unfinished, otherwise one waiting call |
| UserTasks.CallAdds | app/services/user_task.py:183-208 | when a call is accepted, and the row it adds: waiting at the site as its start, without an end, offered to every vehicle |
| UserTasks.UserTaskService.SetTask | app/services/user_task.py:302-329 | the new rows and the command, branch by branch |
| UserTasks.UserTaskService.CancelCallDeviceTask | app/services/user_task.py:401-426 | ends the newest unfinished call, on the vehicle if that reports state 85 for it, otherwise in the table |
| UserTasks.DeletionKeepsOffers | app/services/user_task.py:428-432 | deleting a task takes it out of every vehicle's offer and changes no offer of another task |
| UserTasks.NewestCall | app/services/user_task.py:405-410 | the head of both lists sorted together is the unfinished call of greatest id |
| UserTasks.CancelReachesAssigned | app/services/user_task.py:58-68 | `cancel_task` never reaches a task that was not assigned on creation |
| UserTasks.CancelReachesIff | app/services/user_task.py:58-68 | `cancel_task` cancels every waiting task of the vehicle and nothing else |
| UserTasks.SetTaskReaches | app/services/user_task.py:315-329 | a vehicle is commanded only while it reports working on this very task in mode 2 or 3; no other row changes |
| UserTasks.SetTaskSendsIff | app/services/user_task.py:315-329 | exactly when each command is sent, when the call is refused and when the row is cancelled |
| TaskLife.TasksMoveOnward | app/services/user_task.py:58-434 | over every run of all calls on the task table a task that left send_flag "1" never returns to it, and keeps its type and its vehicle |
| TaskLife.DispatchedOnce | app/services/send_task.py:75-80 | with dispatch as one step no task is dispatched twice, to one vehicle or two, unless it was deleted in between |
| Interleaving.TwiceOnlyIfOverlapping | app/services/send_task.py:49-82 | with other calls between pick and write, a task not deleted is written twice only by two vehicles of which the second picked before the first wrote |
| Interleaving.RaceSendsTwice | app/services/send_task.py:56-79 | two vehicles that both pick the one waiting task are both sent it |
| Interleaving.AtomicDispatchesOnce | app/services/send_task.py:56-79 | without any step between pick and write it cannot happen |
| Interleaving.NeverWaitsAgain | app/services/send_task.py:75-77 | even then no task returns to waiting |
| CreationRace.SharedOnlyIfOverlapping | app/services/task_op_service.py:42-148 | with other calls and any reports between choosing and writing, two creations share a storage while the first task is unfinished only if they are of different form devices and the second chose before the first wrote |
| CreationRace.KeepsHeld | app/services/task_op_service.py:139-145 | while a written task is unfinished its start is not full and its end not empty, whatever vehicles report and others write |
| CreationRace.RaceSharesStart | app/services/task_op_service.py:59-145 | two devices call goods to two sites, both find the one full storage, and both tasks start there |
| CreationRace.TogetherIsCreate | app/services/task_op_service.py:46-148 | with nothing in between, the two steps are the creation of the reservation runs |
| TaskLife.NeverAnothersTaskInRuns | app/services/task_op_service.py:153-183 | at any point of any such run a vehicle is offered a waiting task that is unbound or its own |
| TaskLife.SoundRuns | app/services/user_task.py:183-206 | in every such run waiting tasks without assignment have no vehicle, and at most one call waits |
| TaskLife.CallOrderIsMoot | app/services/task_op_service.py:173-176 | so the descending order of calls never decides |
| TaskLife.StepOnward | app/services/user_task_proxy.py:138-217 | no event, whatever a vehicle reports, moves a task backwards |
| StorageService.EditStorageStatus | app/services/storage.py:139-189 | refusal, bare write, task or forced camera status, branch by branch |
| StorageService.EditScanStorageStatus | app/services/storage.py:223-249 | a scan of a bound, enabled, free site toggles it through the above |
| StorageService.ScanReply | app/services/storage.py:228-249 | a scan is refused exactly for an unknown, unbound or disabled device and for a site that is unknown, disabled or in work; otherwise it announces the other of the two statuses |
| StorageService.CameraScan | app/services/storage.py:161-189 | a camera scan brings the site to the toggled status or in work exactly if the camera is not numbered 0, only reports statuses, or a task can be created; otherwise nothing changes |
| StorageService.CreateTouches | app/services/task_op_service.py:139-148 | a created task always puts the announced site in work and adds a row; any other outcome changes nothing |
| StorageService.StatusReply | app/services/storage.py:151-189 | every answer of `edit_storage_status` with its condition and what it leaves |
| StorageService.StatusMoves | app/services/storage.py:161-175 | a task made for status "0" ends at the site, any other starts there |
| AreaStatus.SitesOf | app/repositories/task.py:28-39 | exactly the template's sites of the role, in order |
| AreaStatus.EditAreaStatus | app/services/storage.py:191-221 | refused unless the template runs; otherwise the loop's result over the ordered sites |
| AreaStatus.VisitAll | app/services/storage.py:211-220 | skips missing, disabled and working sites, creates for the others, stops at an exception |
| AreaStatus.CreateTakes | app/services/task_op_service.py:139-145 | a creation from a free site takes the site and its counterpart, which were free, and touches no other storage |
| AreaStatus.CreateTakesTwoIff | app/services/task_op_service.py:59-93 | it puts two storages in work exactly if the storage found for the first template is not the announced site |
| AreaStatus.CounterpartDiffers | app/repositories/task.py:63-83 | that is so whenever no template lists a site in both roles; different templates may differ |
| AreaStatus.StepAllocates | app/services/storage.py:211-220 | one site adds at most one pair, disjoint from all before |
| AreaStatus.BatchAllocates | app/services/storage.py:191-221 | whatever the templates, a batch pairs its tasks with disjoint pairs of formerly free storages, each with a site of the area, and touches no other storage |
| AreaStatus.BatchServes | app/services/storage.py:211-220 | a free, enabled site from which a task can be created when its turn comes is in work afterwards, unless the batch raised there |
| AreaStatus.BatchTakesTwoIff | app/services/storage.py:191-221 | it raises the storages in work by two per task exactly if no task made starts and ends at one storage; what a caller can check beforehand is `CreateTakesTwoIff` for each site, or that no template lists a site in both roles |
| AreaStatus.BothRolesTakeOne | app/services/task_op_service.py:59-75 | the failing input: a template with a site in both roles makes one storage start and end of one task |
| CameraTable.IsUpdateStorage | app/services/camera_table.py:57-112 | one observation changes counters, marks and rows as `Observe` says |
| CameraTable.SiteOfSlot | app/services/camera_table.py:50-55 | the site of a relation with this camera and this slot, None exactly if there is none |
| Debounce.ActsAtItsSite | app/services/camera_table.py:57-112 | a call changes rows only by writing the toggled status at a site bound to this camera and slot, or by creating a task from there |
| Debounce.ActedIsQuiet | app/services/camera_table.py:63-66 | after acting on a bit the same bit is ignored for 240 seconds and not longer |
| Debounce.ActedForgets | app/services/camera_table.py:98-112 | acting deletes the counter, so the next action takes six sights again |
| Debounce.CounterLives | app/services/camera_table.py:76-91 | a counter lives 60 seconds after the first sight and 20 after the others |
| Debounce.SixthIsApplied | app/services/camera_table.py:85-112 | five timely sights of a bit that the site does not show, and the sixth acts |
| CameraTable.AnalyzingStorageState | app/services/camera_table.py:36-48 | slots are observed in order from bit 0; an exception ends the report |
| CameraTable.SlotBit | app/services/camera_table.py:42-47 | the character taken from the padded binary text is the slot's bit |
| Debounce.CountersBounded | app/services/camera_table.py:76-112 | in every history a counter, live or expired, is at most one above the run of equal observations under its key |
| Debounce.FiveEqualUnderKey | app/services/camera_table.py:86-105 | an applied state was seen in the last five observations under its key |
| Debounce.DebouncedIff | app/services/camera_table.py:76-112 | for a set of slots "the last five observations of that slot agree" holds in all histories exactly if their keys differ |
| Debounce.SharedCounter | app/services/camera_table.py:76 | two slots with one key share one counter: three sights of each suffice |
| Debounce.AliasedSlots | app/services/camera_table.py:76 | camera 1 slot 11 and camera 11 slot 1 are such slots |
| Debounce.EqualWidths | app/services/camera_table.py:76 | cameras with equally long numbers never share a key |
| Debounce.ObserveIsSight | app/services/camera_table.py:76-112 | one call of the service has the counters and the decision of the history |
| Debounce.CountersOfRun | app/services/camera_table.py:57-112 | so over every run of the service from empty memory, whatever rows, marks and set-up it meets |
| Debounce.FiveBeforeActing | app/services/camera_table.py:86-112 | whenever the service acts, the last five calls under the key that got past the early returns showed the bit |
| Debounce.ServiceDebouncedIff | app/services/camera_table.py:57-112 | in all runs of the service these are five calls of that very slot exactly if the slots' keys differ |
| Debounce.AppliedStatusIff | app/services/camera_table.py:98-112 | when a bit is applied the camera's site has that status or is in work exactly if the camera is not numbered 0, only reports statuses, or a task can be created |
| Debounce.CameraZeroIgnored | app/services/storage.py:163-189 | the failing input: camera 0 sees goods at an empty site of no template, and nothing changes |
| TaskTemplates.AddTaskTemp | app/services/task.py:35-80 | replaces the template's rows, keeping a run status that is set |
| TaskTemplates.AddedRows | app/services/task.py:35-80 | the rows afterwards: other templates as they were, this one with exactly the form's devices and sites, numbered from 1 in each role, and the status it kept |
| TaskTemplates.InsertSites | app/services/task.py:82-99 | appends one row per site, numbered from 1 |
| TaskTemplates.EditTaskTemp | app/services/task.py:117-147 | switching to "0" is refused exactly if another running template has one of the sites in the same role |
| TaskTemplates.EditSucceedsIff | app/services/task.py:119-147 | both directions: it succeeds for a known template unless it is to run while another running one has a site in the same role |
| TaskTemplates.DelTaskTemp | app/services/task.py:149-156 | removes the template, its sites and devices and no others |
| TaskTemplates.EditTaskTempInfo | app/services/task.py:158-170 | deletes and adds anew |
| TaskTemplates.InfoEditedRows | app/services/task.py:158-170 | afterwards the template has the form's rows alone and does not run |
| TaskTemplates.AddKeepsIff | app/services/task.py:41-49 | adding keeps running templates disjoint exactly unless it replaces a running one whose new sites clash |
| TaskTemplates.AddOverRunningClashes | app/services/task.py:41-49 | the failing input: template 2 runs, is added again with a site of template 1, and still runs |
| TaskTemplates.EditKeeps | app/services/task.py:123-140 | switching never breaks exclusivity |
| TaskTemplates.RunsStayExclusive | app/services/task.py:35-170 | over every run without such an addition running templates stay disjoint in (site, role) |
| TaskTemplates.FirstTemplateIsOnly | app/services/task_op_service.py:60-67 | the template that creation takes first does not depend on row order |
| SnowFlake.SnowFlakeIds.NextId | app/utils/id_utils.py:44-59 | the new state and the id composed of it |
| SnowFlake.StepTakesFirst | app/utils/id_utils.py:46-53 | unless 4096 ids of the millisecond are used up, an id carries the first reading of its call |
| SnowFlake.WaitNextMillis | app/utils/id_utils.py:38-42 | the loop returns the first reading above the last timestamp |
| Bits.OrIsSum | app/utils/id_utils.py:54-59 | OR with a field below the shift is a carry-free sum, for negative numbers too |
| SnowFlake.FieldsRecoverable | app/utils/id_utils.py:54-59 | timestamp, datacenter, worker and sequence can be read back from the id |
| SnowFlake.IdRisesIff | app/utils/id_utils.py:44-59 | a call yields a greater id than the call before exactly if its first clock reading is not behind that id's timestamp |
| SnowFlake.IdsIncreaseIff | app/utils/id_utils.py:44-59 | ids increase strictly over a run exactly if that holds at every call |
| SnowFlake.IdsIncrease | app/utils/id_utils.py:44-59 | in particular for every clock that never goes back |
| SnowFlake.PerMillisecond | app/utils/id_utils.py:47-52 | under that condition at most 4096 ids share a millisecond |
| SnowFlake.ClockBackRepeats | app/utils/id_utils.py:47-52 | the failing input: a clock that goes back by one and returns repeats an id |
| TaskCache.TaskStore.GetTaskInfo | app/services/user_task.py:23-34 | a live entry wins, otherwise the row is read and kept for ten seconds |
| TaskCache.FirstRead | app/services/user_task.py:25-34 | without a live entry the row is returned if there is one, and again for ten seconds, whatever happens to it |
| TaskCache.TaskStore.UpdateForkState | app/services/user_task_proxy.py:263-297 | a pick or place writes the row and then its cached copy |
| TaskCache.EntriesHeld | app/utils/redis_util.py:62-69 | every entry was the table's row at most ten seconds before it expires |
| TaskCache.BoundedStaleness | app/services/user_task.py:23-34 | over all interleavings of reads, picks, places, writes, insertions, deletions and time, a returned row was in the table at some moment of the last ten seconds |
| TaskCache.ForkIsSeen | app/services/user_task_proxy.py:274-277 | a read right after a pick or place sees it |
| TaskCache.BoundIsTight | app/services/user_task.py:25-33 | a deleted row is still read after nine seconds and not after ten |

## Left out

- Dispatch.SendTaskService.DispatchTask: atomic with respect to the tables (overlapping dispatches are the subject of `Interleaving`); the idle-time key of the vehicle is not modelled.
- Reservation.ReservationsHold: an area batch counts as its single creations; bare status writes, the forced camera status and direct-send tasks are not events of these runs, because they write statuses or use sites without reserving them.
- GoodsAccount.GoodsConserved: same runs; a failure reported with goods on the fork is counted as a loss of one, because the tables no longer say where those goods are.
- TaskLife.TasksMoveOnward: `send_points_task` stores a row without a send_flag, a value the model's flags do not have.
- UserTasks.UserTaskService.SetTask: the lookup by message id is the parameter `id`.
- FutureManager.AgvChannelFutureManager.SendMsgSync: the map of connections and the writing of bytes; whether a connection exists does not change which future a reply resolves.
- ByteProcess.HexStringToBytes: `str.upper` on letters outside ASCII, which can change the length of a text.
- ResponseParser.AcknowledgedMeans: the failure texts and their tables; only success matters to the callers modelled.
- TaskTemplates.AddTaskTemp: spare sites, names and audit columns.
- TaskTemplates.InsertSites: spare sites.
- TaskTemplates.DelTaskTemp: spare sites.
- TaskTemplates.EditTaskTempInfo: spare sites, names and audit columns.
- SendTask.TaskText: handles of one hex digit, in the rows from `TaskText` to `WayPointFields` and in `Dispatch.PlanIs`, which state exact bytes; `SendTask.IntactIff` shows that exactly these give whole frames.
- UserTaskProxy.UserTaskProxyService.UpdateTask: the idle-time key and the reply frames to the vehicle.
- UserTaskProxy.UserTaskProxyService.UpdateStorageState: the reply frames to the vehicle; the cached task copy is the subject of `TaskCache`.
- SnowFlake.SnowFlakeIds.NextId: the lock; a call that would wait forever is outside its precondition.
- The `_doing` set of the frame server and its logging: it is emptied before the handler returns, so it never holds a key when the next frame comes.
- Waiting for the unlock acknowledgement inside a heartbeat: whether it succeeds is a parameter.
- Liveness: no claim that a vehicle finishes or that a reserved storage is ever released; `Stranded` says what holds instead.
- Routers, forms, result texts, login, device and site maintenance, scheduler, push messages, float conversions, wifi and traffic frames, the model generator: plumbing, or framing that would only add easy members.
