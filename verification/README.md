# A verified model of the access control unit

This project models, in Dafny, the parts of the access control unit (ACU) whose behaviour has to hold over
whole runs, and proves what they promise. Check it with `dafny verify dfyconfig.toml`.

The ACU stores door events and hands them to a Device Manager (DM) over a lossy polling protocol; takes in
and hands out complete user rosters in numbered chunks while the doors keep working; frames IDTi V2 packets
over TCP; speaks a CRC-protected serial protocol with its remote reader units (RRU); and changes its own
network settings in a way that survives a power failure at any moment.

## How it is built

| file | part of the system |
|---|---|
| `Options.dfy`, `Bytes.dfy`, `BitString.dfy`, `OrderedTable.dfy` | missing values, bytes, exclusive-or, big-endian fields, bit strings, ordered SQL tables |
| `EventLog.dfy`, `EventDb.dfy`, `MemoryRing.dfy`, `History.dfy` | the event store, its memory-only fallback, and the delivery of events to the DM |
| `UserRecord.dfy`, `Roster.dfy`, `UserBin.dfy`, `RosterRetry.dfy`, `RosterDoors.dfy` | the record format, the user tables with their staging load, the chunk receiver, a sender that repeats, whom a received roster lets in |
| `RosterOrder.dfy`, `RosterSend.dfy`, `RosterPaging.dfy`, `RosterTransfer.dfy`, `UserCmd.dfy` | handing the roster out in pages, when that is exact, the transfer as a whole, single-user commands |
| `IdtiPacket.dfy`, `Framing.dfy`, `SendQueue.dfy` | packets, the receive loop, the send buffer |
| `Crc16.dfy`, `CrcOrder.dfy`, `CrcCheck.dfy`, `RruFrame.dfy` | the CRC, how far apart the errors that it notices may lie, its start and check value, and the byte-at-a-time frame parser |
| `Subnet.dfy`, `NetCfg.dfy`, `RollbackRace.dfy` | address checks, apply / confirm / rollback with power failures, and a confirm beside a running rollback |
| `DeviceSettings.dfy`, `AlarmOutputs.dfy` | the settings store and the alarm relay rule |

Code that updates state in place is a class or a method over arrays, proved against a function of the old
state; the promises about whole runs are lemmas about those functions. Unsigned fields are bounded integers
whose wrap-around is written out. An SQL table is a map, a transaction keeps the committed contents apart
from the working ones, and what the kernel, the network and the power supply do is a parameter or an action
of the run. IPv4 prefixes follow section 3.1 of RFC 4632; everything else is defined by the code.

## What was found

These promises hold only under a condition; each has a lemma that says exactly when.

- Paging out the roster gives every request exactly the users of its page if and only if no user has the
  all-zero id, there are at most 65,535 full pages, and no user has two cards, with one exception: the last of
  exactly 113 users may have up to 114 (`RosterPaging.PagingIsExact`). The cards are whole as well if and only
  if no user has two (`RosterPaging.PagingIsComplete`). The queries join users with their cards, so a user with
  two cards is sent twice within a page while the announced count has it once
  (`RosterPaging.TwoCardsSentTwice`); a further card that would start the next page of an in-order read is
  skipped, since the cursor goes past all rows of that user (`RosterPaging.CursorSkipsUser`).
- `acud/users.h:101` says that a user has one card, but the card table is keyed by the card number, so
  re-registering with another card leaves the old row. A single-user get returns what was set if and only if
  the user holds no other card (`UserCmd.SetThenGet`).
- A single-user change made while a roster is being loaded is in force at once but shares the load's
  transaction. When the load is dropped the change stays if and only if a batch of 5,000 rows was filled after
  it (`Roster.ChangeDuringLoad`); when the load is committed it is gone (`Roster.ChangeReplaced`).
- Chunk numbers keep repeats and gaps out of a received roster for up to 65,536 pieces
  (`UserBin.StreamingEqualsBatch`); with more, a late repeat of the first piece is taken for the next one
  (`UserBin.LateRepeatTaken`). Nothing says which number is the first (`UserBin.FirstArrivalTaken`).
- A chunk that comes again is answered Ok only while bytes are missing. When the answer to the last chunk is lost,
  every repeat of it is refused although the roster is in (`RosterRetry.RepeatAnswered`,
  `RosterRetry.LastAnswerLost`); `acud/userbin.c:355-356` promises success for a chunk that was processed.
- Write readiness is never watched: what the kernel does not take at once waits until the next answer is
  queued (`SendQueue.NeverWatched`, `SendQueue.PendingWaits`), although `acud/net.c:183-187` and 213-216 speak
  of going on when the loop reports that writing is possible. The would-block return comes before the events are
  set, and when they are set everything has been sent.
- How a TCP stream is cut does not matter if and only if nothing follows the first bad header
  (`Framing.CutsDoNotMatter`), because a bad header throws away whatever had been received by then.
- The difference that is left after the scan of received packets is in range if and only if no request handed
  over drops the client (`Framing.Connection.OnReadable`), because a drop sets the receive length to 0 under
  the running loop.
- Restarting the daemon forgets which batch was sent last. The delivery promise survives a restart if and only
  if the answer to that batch was read, or there is no such batch, or every event from its first to the read
  position had been received or trimmed (`History.RestartKeepsNoGap`); `History.RestartLosesUnreadBatch` is a run
  that loses a batch.
- The CRC notices one to three altered bits anywhere in a frame's checked part (`RruFrame.ThreeBitsNoticed`).
  Two altered bits go unnoticed if and only if their distance is a multiple of 32,767 bits
  (`CrcOrder.TwoBitsPass`), which no frame reaches; the four bits of the polynomial do go unnoticed
  (`Crc16.SeventeenBitsCanPass`).
- Confirm stops the rollback timer but not a rollback that the timer has started. The change is undone all the
  same if and only if the rollback reads the flag before confirm lowers it and copies before confirm drops the
  backup (`RollbackRace.UndoneWhen`), also when confirm reports success (`RollbackRace.ConfirmedYetUndone`).
- A confirm that dies between stopping the timer and lowering the flag leaves the change in force and unwatched
  until the next boot undoes it (`NetCfg.DeadConfirmLeavesChange`).
- The flag of a network change is gone after a boot if and only if it was not cut short while it was written
  (`NetCfg.PowerLossAnywhere`); an empty one blocks every later change until a confirm
  (`NetCfg.EmptyFlagBlocks`). The profiles themselves are always right.
- An output whose type is changed away from Alarm while it is on stays on after the inputs go quiet
  (`AlarmOutputs.RetypedOutputStays`).
- `acud/net.c:36-44` speaks of 200 events in an answer; a blocking answer carries at most 100, so the default of
  200 and every configured size from 100 on come to the same (`History.PerPoll`).

## Model

| member | source | states |
|---|---|---|
| EventLog.Retention | acud/events.c:256-344 | for every run of appends, fetches, acknowledgements, rewinds, index damage and reopenings: the store holds a suffix of everything ever appended, newest included, and right after an append fewer than capacity + 1000 events |
| EventLog.NextKeeps | acud/events.c:118-206 | every operation only appends to the history and only trims from the front, and keeps the room left until the next trim bounded, although reopening restarts the trim counter |
| EventLog.TrimLeavesNewest | acud/events.c:256-294 | an append that trims leaves exactly the newest `capacity` events |
| EventLog.AppendedIsPending | acud/events.c:308-336 | whatever read position was stored, even far beyond the newest event, the event just appended is pending and a large enough fetch ends with it |
| EventLog.PendingCounts | acud/events.c:458-488 | the pending count is the number of retained events beyond the read position, counted one by one |
| EventLog.RewindCovers | acud/events.c:553-588 | after a rewind to a time every retained event from that time on is pending, monotone timestamps or not, and nothing before the first of them |
| EventLog.ToBeSent | acud/events.c:403-624 | an acknowledgement takes away the events up to its number, a rewind to a number adds those from it on, marking all as sent takes all away, and no event is lost |
| EventLog.MarkedThenNext | acud/events.c:605-624 | after all are marked as sent nothing is pending, and the next event alone is |
| EventLog.FetchRepairs | acud/events.c:346-401 | an empty fetch pulls a position beyond the newest event back, any other fetch changes nothing |
| EventLog.TrimsAreRare | acud/events.c:124-126 | no trim before capacity + 1000 events since opening, none for 1000 events after one; capacity ten million by default |
| EventDb.Perform | acud/events.c:118-624 | the table follows every run of the store's operations, reopening and a damaged index included |
| EventDb.Retained | acud/events.c:256-344 | after any run of a new store that ends with an append the table holds fewer than capacity + 1000 rows and the newest event among them |
| EventDb.Store.constructor | acud/events.c:118-206 | a new store is an empty log with the given or default capacity |
| EventDb.Store.Reopen | acud/events.c:118-206 | only the tables survive; the trim counter restarts and the read position is repaired |
| EventDb.Store.Total | acud/events.c:490-509 | MAX - MIN + 1 is the number of stored events |
| EventDb.Store.Pending | acud/events.c:458-488 | the clamped MIN/MAX arithmetic is the number of rows with seq beyond the stored position, also when trims have overtaken it or it lies beyond the table |
| EventDb.Store.RepairIndex | acud/events.c:529-551 | a read position beyond the newest event is pulled back to it, and only then |
| EventDb.Store.TrimIfNeeded | acud/events.c:256-294 | deletes exactly the oldest events above the capacity, so that the numbers stay contiguous |
| EventDb.Store.Append | acud/events.c:296-344 | repairs, inserts under the next number, and trims when due: the table is the log with the event appended |
| EventDb.Store.Ack | acud/events.c:403-436 | moves the read position forward only, to the acknowledged number |
| EventDb.Store.RewindToSeq | acud/events.c:590-603 | moves the read position back to just before the given event, never forward |
| EventDb.Store.RewindToTime | acud/events.c:553-588 | puts the read position just before the oldest event of the period, and returns exactly the resulting pending count |
| EventDb.Store.MarkAllSent | acud/events.c:605-624 | nothing is pending afterwards and nothing is lost |
| EventDb.Store.StepRows | acud/events.c:361-386 | the row loop yields min(max, pending) consecutive events from the read position on |
| EventDb.Store.Fetch | acud/events.c:346-401 | returns the oldest pending events; an empty answer repairs the position and asks again, at most once |
| MemoryRing.Ring.Push | acud/events.c:233-244 | the 512-slot ring is a queue that drops its oldest event when full |
| MemoryRing.Ring.Fetch | acud/events.c:346-360 | the first events of that queue, in order |
| MemoryRing.Ring.Ack | acud/events.c:410-419 | drops from the front exactly the events numbered up to the acknowledged one |
| History.Server.HandleHistoryRequest | acud/net.c:787-887 | one request: replay if asked, answer with the batch after the read position, and move the position and remember the batch only when the answer was accepted for sending |
| History.PollEffect | acud/net.c:787-887 | the answer is the next min(pending, 1 or up to 100) events by number, and where the read position and the remembered batch end up |
| History.AnswerHeader | acud/net.c:822-857 | Count is how many events were waiting, counted one by one and at most 65,535; End is how many are carried, the lesser of that and 1, or 100, or the batch size; Start and the block size are 1 and 36 exactly when some are |
| History.HeaderTellsRest | acud/net.c:843-857 | when the answer goes out, Count less End is what is still waiting |
| History.ReplayIsSame | acud/net.c:803-820 | asked for again at once, an answer comes again, events and header |
| History.NoGapAlways | acud/net.c:787-887 | over every run with lost requests, lost answers, refused answers, new events and trims: every event up to the read position has been received, was trimmed, or lies in the unread last batch that the next request replays |
| History.NoGapFromStart | acud/net.c:787-887 | the same from the moment a daemon starts |
| History.DeliverySettles | acud/net.c:787-887 | once an answer is read, everything before the read position is received or trimmed |
| History.PollsDrain | acud/net.c:787-887 | each read blocking answer takes a full batch off what is pending |
| History.EverythingArrives | acud/net.c:787-887 | left alone for enough polls, the DM has every event that the ring has not given up |
| History.PerPoll | acud/net.c:795-801 | a batch size of 100 or more, or none, means 100 events an answer, a smaller one means itself, and without the blocking bit it is one event |
| History.EnoughPolls | acud/net.c:787-887 | so many read polls at that many events each settle everything that was waiting |
| History.RestartForgets | acud/net.c:787-887 | an event before the read position is received after a restart if and only if it had been received before |
| History.NoGapFromRestart | acud/net.c:787-887 | from its read position on, a restarted daemon keeps the promise again |
| History.RestartKeepsNoGap | acud/net.c:787-887 | it keeps the promise for the past as well if and only if the last answer was read, or no batch is remembered, or every event from the first of that batch to the read position was received or trimmed |
| History.RestartLosesUnreadBatch | acud/net.c:787-887 | a run that loses a batch: its answer is lost and the daemon restarts |
| UserRecord.InfoRoundTrip | acud/userbin.c:189-238 | parsing a built User Info returns every field; only the date is cut to three bytes |
| UserRecord.InfoRebuilds | acud/userbin.c:189-238 | building from a parsed User Info returns every byte but the reserved one |
| UserRecord.RecordLayout | acud/userbin.c:488-516 | the byte position of every field of a 128-byte record; all other bytes are zero |
| UserRecord.EncodeDecode | acud/userbin.c:254-318 | an encoded record passes its check and decodes to the same user and card |
| UserRecord.DecodeEncode | acud/userbin.c:488-522 | encoding a decoded record returns every byte that means something |
| UserRecord.AlteredRecordRejected | acud/userbin.c:178-186 | any single altered byte at offsets 8 to 127 fails the check |
| UserRecord.RecordCrcOk | acud/userbin.c:178-186 | the loop accepts exactly the records whose check byte is the exclusive-or of bytes 8 to 126 |
| UserRecord.BuildRecord | acud/userbin.c:488-522 | filling the buffer in place and then running the checksum over it gives the encoded record, whatever the buffer held |
| Roster.LastUserWins | acud/users.c:603-617 | in a loaded roster each user is the last one that came in under its id, and no others are there |
| Roster.LastCardWins | acud/users.c:619-636 | the same for cards |
| Roster.LookupFinds | acud/users.c:188-190 | a card finds a user if and only if its row names that stored user |
| Roster.LoadedLookup | acud/users.c:188-190 | in a loaded roster a card finds exactly the last row of the user whom the last row of the card names |
| Roster.LookupAfterPut | acud/users.c:467-488 | a card row that is put decides for its card, a user row for the cards of its user, and no other lookup changes |
| Roster.UsersDb.LoadBegin | acud/users.c:547-587 | a load in progress is dropped, staging starts empty in a new transaction, and lookups see what was last committed |
| Roster.UsersDb.LoadPut | acud/users.c:603-617 | a row goes to staging only, lookups are unchanged, and every 5,000th row commits the batch |
| Roster.UsersDb.LoadPutCard | acud/users.c:619-636 | the same for a card |
| Roster.UsersDb.RotateTxnIfNeeded | acud/users.c:590-601 | no transaction grows past 5,000 rows, and the contents do not change |
| Roster.UsersDb.LoadAbort | acud/users.c:638-662 | staging is gone and lookups see what was last committed |
| Roster.UsersDb.SwapTables | acud/users.c:690-735 | the live tables are replaced in one committed transaction |
| Roster.UsersDb.LoadCommit | acud/users.c:664-748 | the live roster becomes exactly the last-write-wins fold of the accepted rows |
| Roster.UsersDb.PowerLossAndOpen | acud/users.c:151-218 | after a power failure that keeps the first `kept` commits, lookups see the live tables of the last of those, and no staging is left |
| Roster.Perform | acud/users.c:467-748 | the store follows every run of begins, rows, aborts, commits, single-user changes and power failures that lose any number of commits |
| Roster.LoadsChangeNoLookups | acud/users.c:547-748 | in every run of loads begun, filled, dropped and cut off by power failures that may lose any of their batches, no card lookup changes |
| Roster.WholeLoad | acud/users.c:547-748 | after any steps, a load from begin to commit puts exactly its own rows in force, last write winning |
| Roster.BatchesFilled | acud/users.c:590-601 | n more rows fill one batch for every 5,000 of them and of those already in the open one, and the rest is in the open one |
| Roster.LoadCommits | acud/users.c:547-636 | a load commits once for every 5,000 of its rows before it is swapped in |
| Roster.PowerLossServes | acud/users.c:112-123 | after a power failure the last commit that survived is served and no load is open |
| Roster.ChangeDuringLoad | acud/users.c:467-545 | a single-user change during a load outlives the load's being dropped if and only if a batch was filled after it or it changed nothing |
| Roster.ChangeReplaced | acud/users.c:664-748 | and never outlives the load's commit |
| Roster.UsersDb.LookupByCard | acud/users.c:315-349 | finds a user if and only if the card is in the live roster and its row names that stored user |
| Roster.UsersDb.Put | acud/users.c:467-489 | a single user or card is in force at once and every other row stays; it is committed at once exactly when no load is open |
| Roster.UsersDb.Delete | acud/users.c:491-512 | the user and its cards are gone, and the only state committed in between is the one with the cards gone and the user still there |
| UserBin.SlicesOfConcat | acud/userbin.c:379-403 | cutting joined records gives the records back |
| UserBin.SlicesStream | acud/userbin.c:379-403 | adding bytes to a stream only adds records at its end |
| UserBin.SliceCounts | acud/userbin.c:379-403 | a stream holds its length divided by the record length, and the remainder is waiting |
| UserBin.StartMeaning | acud/userbin.c:97-171 | a Start is accepted for a positive whole number of 128-byte records of kind 1 or 1808-byte records of kind 2 |
| UserBin.Receiver.Start | acud/userbin.c:97-171 | accepts exactly a whole number of records of a known kind; drops a transfer in progress either way, after which lookups see what was last committed |
| UserBin.Receiver.Abort | acud/userbin.c:74-85 | ends a transfer, also when the connection drops; lookups see what was last committed |
| UserBin.Receiver.StoreRecord | acud/userbin.c:254-318 | a record is kept if and only if its check holds and its id is not all zero; its card only if not all zero |
| UserBin.Receiver.Consume | acud/userbin.c:379-403 | the copy loop: whatever the record boundaries, each complete record is stored and counted once |
| UserBin.Receiver.Continue | acud/userbin.c:343-417 | the next chunk that fits is taken, a repeat of the last is answered without being taken, anything else is refused; the last two change nothing; on completion the live roster is the one that the stream describes |
| UserBin.Receiver.Counts | acud/userbin.c:379-403 | waiting bytes are received mod record length; good plus bad records are received div record length |
| UserBin.OnlyNextPieceTaken | acud/userbin.c:357-380 | of all the pieces of a cut, under their own numbers, exactly the next one is taken |
| UserBin.StreamingEqualsBatch | acud/userbin.c:343-417 | for any cut into at most 65,536 pieces, arriving in any order after the first with any repeats and gaps and over-long chunks mixed in: the stream is always the pieces taken so far, where a piece is taken exactly when it is the next one, and the transfer ends exactly with the last piece |
| UserBin.LateRepeatTaken | acud/userbin.c:357-380 | with more pieces a repeat of the first is taken for the one after the 65,536th whenever it fits |
| UserBin.FirstArrivalTaken | acud/userbin.c:357-380 | whatever piece arrives first is taken as the beginning |
| UserBin.Transfer | acud/userbin.c:343-430 | the receiver driven through such a run: lookups are unchanged until the last piece is in, then served by exactly the roster that the blob describes, with the result event for its records |
| UserBin.InOrderCompletes | acud/userbin.c:343-417 | every chunk sent once, in order, from any first number and across the wrap at 65536, completes the transfer |
| RosterRetry.VerdictMeaning | acud/userbin.c:343-417 | Complete for the next chunk that brings the last byte, Ok for the next one before that and for the last one again, Failed otherwise |
| RosterRetry.RepeatAnswered | acud/userbin.c:357-380 | a chunk that comes again changes nothing and is answered Ok if and only if bytes are still missing |
| RosterRetry.PieceAnswered | acud/userbin.c:343-417 | of the pieces of a cut the next one is welcome, and while pieces are missing the one before; every other is answered Failed |
| RosterRetry.RetryingDelivers | acud/userbin.c:343-417 | a sender that repeats until it is answered, whatever requests and answers are lost: the receiver is at most one piece ahead, Failed is heard only when everything is in, and as many answers as pieces complete the transfer |
| RosterRetry.LastAnswerLost | acud/userbin.c:346-350 | once the answer to the last piece is lost, every repeat of it is refused |
| RosterRetry.SendRepeating | acud/userbin.c:343-430 | the receiver driven by such a sender serves the blob's roster after as many answers as pieces |
| RosterDoors.KeptRecord | acud/userbin.c:178-188 | a record is kept if and only if its bytes 8 to 127 add up to zero and its user id is not all zero |
| RosterDoors.RecordRows | acud/userbin.c:254-318 | a kept record writes its user, and its card as a card of that user with the number reversed as Proximity Data |
| RosterDoors.WhoGetsIn | acud/userbin.c:254-318 | after a transfer a card lets in the user whom the last intact record with it names, as the last intact record of that user has it; nobody if and only if no intact record has the card |
| RosterDoors.LookupAfterTransfer | acud/userbin.c:343-430 | the receiver driven through a transfer and a card held to the reader: that user and no other |
| RosterOrder.KeyOrder | acud/users.c:404-433 | numbers order ids as the database compares them byte by byte |
| RosterOrder.KeysMeaning | acud/users.c:404-433 | the numeric keys are exactly those of the stored users, one for each |
| RosterOrder.JoinCount | acud/users.c:201-208 | the join has at least as many rows as there are users, and as many exactly when nobody stored has two cards |
| RosterOrder.JoinIsRoster | acud/users.c:201-208 | with one card each the join is the roster in user_id order, each user with its card |
| RosterSend.NextPage | acud/userbin.c:545-560 | with one row each, the rows after the last user served are the next page |
| RosterSend.ReplyIsPage | acud/userbin.c:524-582 | whichever query serves a request, the rows are those of the page asked for |
| RosterSend.CursorMoves | acud/userbin.c:570-582 | after a reply the cursor stands at the end of the page served |
| RosterSend.RepliesArePages | acud/userbin.c:524-582 | any in-order, repeated or jumping sequence of requests gets the joined rows of page index - base for each |
| RosterSend.Sender.ReceiveStart | acud/userbin.c:435-478 | announces the number of users and their bytes as 32-bit values, and starts a fresh cursor |
| RosterSend.Sender.ReadAfter | acud/users.c:383-419 | stepping the cursor query gives the rows above the key, at most the limit |
| RosterSend.Sender.Query | acud/userbin.c:545-560 | the cursor fast path, the start and the OFFSET fallback |
| RosterSend.Sender.ReceiveChunk | acud/userbin.c:524-582 | fills the buffer with the encoded rows of the reply, numbered from 113 times the page, and refuses a short buffer or a read not begun without changing anything |
| RosterPaging.PagingIsExact | acud/userbin.c:524-582 | every request of every sequence is answered with exactly the users of its page if and only if nobody has the all-zero id, the chunk numbers do not run out, and nobody has two cards except perhaps the last of exactly 113 users, whose further cards fill at most a page |
| RosterPaging.PagingIsComplete | acud/userbin.c:524-582 | every reply is the whole page of the join with one row for each of its users if and only if nobody has the all-zero id or two cards and the chunk numbers do not run out |
| RosterPaging.CursorSkipsUser | acud/users.c:404-419 | rows read after a user are of later users only, so a further card of that user is skipped at a page boundary |
| RosterPaging.TwoCardsSentTwice | acud/users.c:201-208 | with two cards in a small roster the first chunk already holds more records than were announced |
| RosterPaging.ZeroIdMissed | acud/users.c:404-419 | a roster with the all-zero id is read without that user |
| RosterPaging.WrapMissed | acud/userbin.c:545-560 | beyond 65,535 full pages of rows the first chunk cannot be asked for again |
| RosterTransfer.ChunksMakeBlob | acud/userbin.c:524-582 | the chunks read in order join to exactly the announced bytes |
| RosterTransfer.RecordNumbers | acud/userbin.c:566-575 | record i of page k is the encoded row 113 k + i and carries that number twice |
| RosterTransfer.BlobRoundTrip | acud/userbin.c:254-318 | receiving the bytes that describe a roster installs that roster |
| RosterTransfer.TransferRoundTrip | acud/userbin.c:488-582 | the chunks of a roster, joined, describe the same roster to a receiver |
| RosterTransfer.ReadAny | acud/userbin.c:524-582 | the sender asked for any sequence of chunks, repeated or jumping, hands out the encoded records of each page asked for |
| RosterTransfer.ReadOut | acud/userbin.c:524-582 | the sender asked for chunks in order from any first number hands out the pages of the roster |
| RosterTransfer.CopyRoster | acud/userbin.c:97-582 | a roster read chunk by chunk from one controller and sent chunk by chunk to another one is then served by the other |
| UserCmd.ProxToCardId | acud/usercmd.c:37-43 | the card number is the first eight bytes reversed |
| UserCmd.CardIdToProx | acud/usercmd.c:46-53 | the card number reversed, then zeros |
| UserCmd.PathsAgree | acud/usercmd.c:37-53 | Proximity Data and binary records name the same card, in both directions |
| UserCmd.Set | acud/usercmd.c:55-125 | refuses short data and the all-zero id; otherwise the user, and its card when one is given, are in force, during a load as well |
| UserCmd.Attached | acud/usercmd.c:55-109 | what is attached by length: a name from 48 bytes on, a card from 80, limits and groups at 112; what is not attached is zero |
| UserCmd.SetAtTheDoors | acud/usercmd.c:55-125 | the card that was set and the cards the user held let in the user as just set, and every other card works as before |
| UserCmd.Delete | acud/usercmd.c:127-145 | removes the user and its cards |
| UserCmd.Get | acud/usercmd.c:147-197 | the stored fields of the user and one of its cards, or a refusal when there is no such user |
| UserCmd.DeleteShutsOut | acud/users.c:491-512 | no card of a deleted user opens anything, and all others work as before |
| UserCmd.SetThenGet | acud/usercmd.c:55-197 | a get returns exactly what was set if and only if the user holds no other card |
| IdtiPacket.HeaderParse | acud/protocol.c:5-60 | accepts exactly the headers with STX, length 44, a good checksum and room for the tail, and reads every field |
| IdtiPacket.Parse | acud/protocol.c:34-57 | an accepted header's packet length is header, data and tail together |
| IdtiPacket.AcceptedHeaders | acud/protocol.c:5-60 | 44 bytes or more, STX first, header length 44, 32 bytes that add up to zero, and room for a tail of four bytes with the check bit and two without |
| IdtiPacket.DataLength | acud/protocol.c:34-57 | the data is what the packet length leaves between the header and that tail |
| IdtiPacket.ParseLooksAtHeader | acud/protocol.c:5-60 | only the 44 header bytes decide |
| IdtiPacket.SentOptionBits | acud/protocol.c:73-76 | of the sixteen option bits the acknowledge bit is on, the check bit off and every other as it was |
| IdtiPacket.EveryOptionBit | acud/protocol.c:73-76 | the same for each of the bits 0 to 15 |
| IdtiPacket.BuildPacket | acud/protocol.c:62-136 | writes the packet in place; -1, with nothing written, exactly when it does not fit the buffer or the 16-bit length |
| IdtiPacket.PacketLayout | acud/protocol.c:62-136 | the byte position of every field of a built packet |
| IdtiPacket.PacketRoundTrip | acud/protocol.c:5-136 | parsing a built packet returns every field, with only the two option bits forced, and the data |
| IdtiPacket.AlteredHeaderRejected | acud/protocol.c:20-28 | any single altered byte among the first 32 is rejected |
| Bytes.XorAllJoins | acud/protocol.c:20-28 | the checksum of one byte is that byte, and that of a run is the exclusive-or of those of its parts |
| Framing.DrainConserves | acud/net.c:1885-1915 | no received byte is lost, repeated or reordered |
| Framing.DrainShape | acud/net.c:1885-1915 | only complete packets are handed over; what is kept is the start of one, shorter than 65,535 bytes, so recv always has room |
| Framing.PacketsComeOut | acud/net.c:1885-1915 | a stream of packets and the start of another is taken apart into exactly those |
| Framing.CutsDoNotMatter | acud/net.c:1871-1915 | every cut of a stream gives the same packets and leftover if and only if nothing follows the first bad header |
| Framing.PacketsArriveHoweverCut | acud/net.c:1871-1915 | for valid packets handle_request is called once a packet, in order, with exactly its bytes, for every cut |
| Framing.Connection.HandleComplete | acud/net.c:1885-1909 | the loop hands over the packets of the buffer and ends at the leftover, or hands over those up to the first one that drops the client |
| Framing.Connection.OnReadable | acud/net.c:1857-1915 | one recv: packets handed over, leftover moved to the front; a closed connection empties the buffer; `recv_len - consumed` stays in range if and only if no packet handed over drops the client |
| SendQueue.FlushConserves | acud/net.c:188-226 | partial sends move bytes from pending to sent and lose none while the connection lasts |
| SendQueue.FlushEmpties | acud/net.c:188-226 | a kernel that takes a byte a call empties the queue |
| SendQueue.RunConserves | acud/net.c:188-257 | over a connection, sent followed by pending is the accepted answers end to end; after a drop, what was sent is a beginning of them |
| SendQueue.RefusedWhen | acud/net.c:232-257 | an answer is refused if and only if the connection is down or it would not fit behind what is still to be sent, and then nothing changes |
| SendQueue.RunFits | acud/net.c:46-51 | over any run the buffer holds what is pending, and an answer of the greatest length fits behind one that is still to be sent |
| SendQueue.NeverWatched | acud/net.c:213-225 | in no run does the loop come to watch for writing |
| SendQueue.PendingWaits | acud/net.c:1862-1865 | bytes that were not taken at once stay until the next answer, however often the socket becomes writable |
| SendQueue.Sender.FlushSend | acud/net.c:188-226 | sends until the kernel stops taking, drops the client on any other result, and sets the watched events only when it gets to the end |
| SendQueue.Sender.Compact | acud/net.c:239-245 | moving the unsent bytes to the front changes nothing that is pending |
| SendQueue.Sender.QueueSend | acud/net.c:232-257 | an answer is queued whole or refused whole, refused exactly when it does not fit after compaction |
| SendQueue.Sender.DropClient | acud/net.c:157-181 | both ends of the buffer are reset and nothing more is sent |
| Crc16.ComputeCrc | tools/rru_proto_check.c:14-23 | the nested loops compute the byte-wise checksum |
| CrcCheck.StartsFull | tools/rru_proto_check.c:14-23 | the checksum is the register clocked from all ones |
| CrcCheck.CheckValue | tools/rru_proto_check.c:86-87 | the nine bytes "123456789" give 0x29B1 |
| CrcCheck.LeadingZeroNoticed | tools/rru_proto_check.c:14-23 | a zero byte put in front of any message changes its checksum |
| Crc16.FromIsClocks | tools/rru_proto_check.c:14-23 | the checksum of bytes is a 16-bit register clocked once for each message bit |
| Crc16.ClocksInjective | tools/rru_proto_check.c:14-23 | different register states stay different under the same message |
| Crc16.BurstDetected | tools/rru_proto_check.c:14-23 | alterations within 16 consecutive bits end in a different register, for messages of any length |
| Crc16.OddErrorsDetected | tools/rru_proto_check.c:14-23 | any odd number of altered bits ends in a different register |
| Crc16.SeventeenBitsCanPass | tools/rru_proto_check.c:14-23 | sixteen is the limit: the 17-bit polynomial itself goes unnoticed anywhere in any message |
| Crc16.Residue | tools/rru_proto_check.c:14-23 | running the checksum over its own value gives zero, and over no other value |
| Crc16.AlterationDetected | tools/rru_proto_check.c:14-23 | both kinds of alteration of a byte run change the checksum |
| Crc16.TwoBytesDetectable | tools/rru_proto_check.c:14-23 | one altered byte or two neighbours are such an alteration |
| CrcOrder.OrderIs | tools/rru_proto_check.c:14-23 | clocking a register n times gives it back exactly when n is a multiple of 32,767 |
| CrcOrder.TwoBitsPass | tools/rru_proto_check.c:14-23 | two altered bits leave the same register if and only if their distance is a multiple of 32,767 bits |
| CrcOrder.ThreeBitsDetected | tools/rru_proto_check.c:14-23 | any one, two or three altered bits end in a different register, for messages of up to 32,767 bits |
| RruFrame.Build | tools/rru_proto_check.c:50-64 | writes the frame in place, at most 263 bytes |
| RruFrame.RruRx.RxByte | tools/rru_proto_check.c:30-48 | one byte of the parser: what is held afterwards, and true exactly when it completes an intact frame, which is then in the buffer |
| RruFrame.FrameRoundTrip | tools/rru_proto_check.c:30-64 | a built frame, STX and ETX in the payload included, is accepted exactly at its last byte, yields what was sent and leaves the parser idle |
| RruFrame.FrameLayout | tools/rru_proto_check.c:50-64 | where everything stands in a frame of 8 to 263 bytes |
| RruFrame.ExactlyIntactFrames | tools/rru_proto_check.c:30-48 | from any mixture of junk without STX, damaged frames of the right length and intact frames exactly the intact ones come out, in order |
| RruFrame.AcceptedIsBuilt | tools/rru_proto_check.c:30-48 | from any state and for any bytes, every accepted frame is one that can be built |
| RruFrame.IdleAgain | tools/rru_proto_check.c:30-48 | from any state the parser is idle again within 263 bytes counting those it holds |
| RruFrame.DamageNoticed | tools/rru_proto_check.c:30-48 | damage from SEQ through the CRC within 16 bits, or of an odd number of bits, is never accepted |
| RruFrame.ThreeBitsNoticed | tools/rru_proto_check.c:30-48 | up to three altered bits from SEQ through the CRC, wherever they lie, are never accepted |
| RruFrame.DamagedFrameDropped | tools/rru_proto_check.c:30-48 | with one altered byte or two neighbours the frame is dropped at its end and the next one is accepted |
| Subnet.NetmaskToPrefix | acud/discover.c:151-165 | returns p exactly when the mask is 2^32 - 2^(32-p), and -1 when there is no such p |
| Subnet.SameSubnet | acud/discover.c:168-180 | the bit-by-bit loop decides whether both addresses lie in the same block |
| Subnet.PrefixIsBlock | deploy/acu-netcfg:54-60 | the first p bits agree exactly when dividing by the block size does |
| Subnet.SettValidate | acud/discover.c:470-505 | a request is accepted exactly when its mask is that of a prefix for which the shell script accepts too and the address is not all zeros or all ones; which refusal applies when it is not |
| Subnet.AcceptableMeans | acud/discover.c:470-505 | in numbers: an address that is not all zeros or ones, a mask 2^32 - 2^(32-p) with p from 8 to 30, and a different gateway in the same block of 2^(32-p) |
| NetCfg.InvAlways | deploy/acu-netcfg:106-244 | in every run of commands, deaths, power failures and timers: while the flag names a profile the backup holds what that file is meant to hold, and a change that is not confirmed has a timer, confirm or rollback to end it unless one of those has died since the change |
| NetCfg.WatchedUnlessDied | deploy/acu-netcfg:106-244 | in every run in which no command dies, an unconfirmed change has the timer, or a confirm or rollback under way, to end it |
| NetCfg.RollbackRestores | deploy/acu-netcfg:222-244 | an undisturbed rollback puts every profile back to what it is meant to hold, and lowers the flag if and only if it had been fully written |
| NetCfg.PowerLossAnywhere | deploy/acu-netcfg:106-244 | whatever was done before and wherever power failed, the next boot ends with the committed profiles |
| NetCfg.UnconfirmedIsUndone | deploy/acu-netcfg:106-150 | any number of applies without a confirm are undone to the profiles before them by the next boot, and by the timer when it is armed |
| NetCfg.TimerUndoes | deploy/acu-netcfg:222-244 | after any run, an armed timer that goes off ends with the committed profiles |
| NetCfg.ApplyIsWatched | deploy/acu-netcfg:136-146 | an apply that gets through changes the profile with the timer armed, and the timer undoes exactly that change |
| NetCfg.ConfirmSettles | deploy/acu-netcfg:214-220 | a confirm that gets through makes the changed profiles the ones that every later boot keeps |
| NetCfg.RefusedWhilePending | deploy/acu-netcfg:121-186 | while a change waits, any number of attempts at another one leave profiles, backup, flag, timer and what is committed as they are |
| NetCfg.DeadConfirmLeavesChange | deploy/acu-netcfg:214-220 | a confirm that dies once it has stopped the timer leaves a change that only the next boot undoes |
| NetCfg.FlagCutShort | deploy/acu-netcfg:133-133 | a run after which a boot leaves the flag: power fails while it is written |
| NetCfg.EmptyFlagBlocks | deploy/acu-netcfg:121-121 | an empty flag stays, the profiles with it, until a confirm |
| RollbackRace.UndoneWhen | deploy/acu-netcfg:214-244 | in every order of the steps of a confirm and a started rollback: the change is undone if and only if the rollback reads the flag before confirm lowers it and copies before confirm drops the backup |
| RollbackRace.RaceEnds | deploy/acu-netcfg:214-244 | confirm reports success if and only if it looks before the rollback lowers the flag, and neither flag nor backup is left when both are through |
| RollbackRace.ConfirmedYetUndone | deploy/acu-netcfg:214-244 | an order of the steps in which confirm reports success and the change is undone |
| NetCfg.Helper.CmdApply | deploy/acu-netcfg:106-150 | the undisturbed command does all its steps, or none while a change waits |
| NetCfg.Helper.CmdApplyRequest | deploy/acu-netcfg:164-212 | the undisturbed request changes the profile for good, or nothing while a change waits |
| NetCfg.Helper.CmdConfirm | deploy/acu-netcfg:214-220 | the undisturbed confirm ends the timer, the flag and the backup and keeps the profiles |
| NetCfg.Helper.CmdRollback | deploy/acu-netcfg:222-244 | the undisturbed rollback restores the named profile from the backup, and dies on an empty flag |
| DeviceSettings.FindSpec | acud/net.c:1344-1354 | the first table entry for the object |
| DeviceSettings.LowestBitMeaning | acud/net.c:1276-1302 | the slot found is the one and only k for which the bitmap is an odd number of 2^k |
| DeviceSettings.RequestSlot | acud/net.c:1276-1302 | the shift loop finds the lowest bit that is on, or none |
| DeviceSettings.SettingKey | acud/net.c:1365-1410 | the place a setting belongs to, or a refusal, by unit, module and slot |
| DeviceSettings.SlotMeaning | acud/net.c:1276-1302 | byte 3 of the address is the module, bytes 4 to 7 the bitmap of slots, and no slot is named exactly when they are zero |
| DeviceSettings.SpecTable | acud/net.c:1329-1354 | the nine objects with the size and the unit of their blocks |
| DeviceSettings.AddressedPlace | acud/net.c:1365-1410 | settings of the controller need no address, a schedule of operating modes is the controller's exactly when module and bitmap are zero, every other place is the slot that the address names |
| DeviceSettings.SettingPlaces | acud/net.c:1356-1410 | a setting can be kept at exactly the slots of its kind, in the layout 22333333444433, of the modules there are, or at the controller for a setting of the controller |
| DeviceSettings.WriteAnswers | acud/net.c:1524-1607 | a write succeeds if and only if it is command 5/5 with at least a whole block for a place that there is |
| DeviceSettings.ReadAnswers | acud/net.c:1454-1517 | a read is answered with the stored block of the right size and never with anything else, except for the default of the controller's own settings |
| DeviceSettings.SettingsDb.Get | acud/devset.c:30-71 | the block for the key, and never one of another size |
| DeviceSettings.SettingsDb.Put | acud/devset.c:73-95 | replaces the block of that key and no other |
| DeviceSettings.LastWriteIsKept | acud/net.c:1524-1607 | after any run of writes each place holds the last block accepted for it, or what it held before |
| DeviceSettings.ReadReturnsLastWrite | acud/net.c:1454-1517 | a read of a place returns exactly the bytes of the last accepted write to it |
| AlarmOutputs.RuleFromStart | acud/main.c:151-233 | over every run of input changes and setting writes each Alarm output is on exactly while alarm is active, or fire is and its bit 7 is set |
| AlarmOutputs.WrittenOutputIsSeen | acud/net.c:1524-1607 | every accepted output setting lies where the rule looks, and the rule reads what was written |
| AlarmOutputs.AlarmMeans | acud/main.c:151-180 | an output is Alarm exactly when a whole 14-byte block is stored for it whose byte 6 is 2, and fire counts when bit 7 of byte 10 is set |
| AlarmOutputs.NewAlarmOutputObeys | acud/main.c:183-189 | an output made Alarm while an input is active obeys at once |
| AlarmOutputs.OtherOutputsKeepTheirState | acud/main.c:164-167 | the rule never touches an output that is not Alarm |
| AlarmOutputs.OtherWritesSwitchNothing | acud/main.c:183-189 | a refused request, or one for another kind of setting, switches nothing |
| AlarmOutputs.RetypedOutputStays | acud/main.c:164-167 | an output written to another type keeps the state it had at that write until it is written again, whatever the inputs do |
| AlarmOutputs.Runtime.ApplyAlarmOutputs | acud/main.c:151-180 | the nested loops bring every Alarm output in line and leave the others alone |
| AlarmOutputs.Runtime.CheckAlarmFire | acud/main.c:202-233 | recomputing only on a change brings the outputs in line with both inputs |
| AlarmOutputs.Runtime.OnSettingChanged | acud/main.c:183-189 | only a stored output setting recomputes |
| AlarmOutputs.Runtime.HandleSettingWrite | acud/net.c:1524-1607 | stores exactly the object's length under its place, or refuses and changes nothing |
| AlarmOutputs.Runtime.HandleSettingRead | acud/net.c:1454-1517 | the stored bytes, the controller's default block, or a refusal rather than zeros |

## Left out

- SQLite, sockets, select, systemd, nmcli, arping and the file system: tables are maps, transactions keep the committed contents, and results of the kernel and the power supply are parameters; SQL calls are taken to succeed, and no switch to memory-only mode in the middle of a run is modelled.
- `acud/config.c`, `acud/log.c`, `acud/db.c`, `acud/access.c`, `acud/hal_mock.c`, `acud/loop.c` and `webui/`: plumbing. Log messages and the events that report a setting, alarm or transfer to the DM are left out too.
- LCD, language and firmware answers, time synchronisation, BCD and calendar conversion, device status blocks: they would only add easy members.
- History.NoGapAlways: runs leave out EventReset and EventIndexChange, which move the read position on purpose, and memory-only mode; restarts are covered by the restart lemmas.
- RosterPaging.PagingIsExact: the roster does not change during a read, and every query of one read yields the cards of a user in the same order, whichever it is.
- RosterTransfer.TransferRoundTrip: for rosters in which every card has an owner, nobody has two, dates fit three bytes and Proximity Data is that of the card number, since the record carries no more.
- Framing.Connection.OnReadable: once a request has dropped the client, what the loop and the move to the front do with the difference that is out of range is left out.
- IdtiPacket.BuildPacket: a null data pointer with a length is left out.
- NetCfg.InvAlways: one command at a time; a rollback beside a confirm is in `RollbackRace.dfy`, without power failures. A copy is taken to be whole, cut by a power failure, or not begun, and nmcli's own change of the profile to be whole or not done. The profile in force at the moment, as against the file, and the conflict check are left out.
- Subnet.SettValidate: addresses are four bytes; their text form in the request file is not modelled.
- AlarmOutputs.RuleFromStart: for a fixed module count and database, starting with all outputs off.
