# Conversion/reversal trade generator: a verified model

The program listens to an exchange's broadcast feed, buffers one-sided trades, and on every order message looks
among them for conversions and reversals: a future, a call and a put of equal quantity with opposed sides. Each
one found is priced and put on a queue as a record. Messages lost on the feed are fetched from a recovery server
over TCP, and a logger writes lines through a ring shared by several threads.

This project models those three parts and proves what they promise.

* `Market`, `Window`: contracts, trades, and the functions that say what the engine's running counters mean.
* `Erase`, `Regroup`, `Splitter`: the sliding window of `SplitTrade`, with its three ways to shrink, its four ways
  to put out a group, and the incremental state it carries along.
* `Exact`, `Ends`, `Blocks`: one turn of the splitting loop said by positions in the window; which windows begin and
  end with the same leg; and conversions that are always found.
* `Least`, `Screening`: the test of a whole buffer and the test of a candidate group.
* `Groups`, `Strikes`: what holds, and what does not hold, of the groups that are put out and accepted.
* `Quotients`, `Pricing`: the record of a group, and how far its spread is from the exact one.
* `Engine`, `Mirror`: the engine over whole message streams, and its symmetry between buying and selling.
* `Recovery`: gaps, chunks, retries, and the live receiver.
* `Framing`: cutting the server's bytes into messages. `Layout`, `Reader`: the messages field by field, and how the
  engine reads them. `Answers`: where an answer may be broken off and cut. `Wire`: from the answer's bytes to the
  engine's records.
* `LoggerRing`, `LoggerProgress`: the logger's ring as atomic steps of any number of producers and one consumer: what
  is safe, and when messages get out.

The loops of the program are methods over sequences, maps, an array and three classes. Each deterministic one is
proved equal to a function of its inputs or of the old state; the theorems are about those functions. Where the
network decides, the contract is a relation between inputs, choices and outcome instead: in `Recovery`, the methods
`RecoveryPackets`, `Retry`, `RetryUntilComplete`, `ForceRecoveryPackets`, `RecoverChunk`, `ContinueWith`, `NextFullChunk`,
`RecoverFullChunks` and `SplitRecoveryDataRequest` of `RecoveryManager`; in `Framing`, `Receive`, `ReceivePiece` and
`ReceiveAnswer`; in `Wire`, `ReceiveRange`. The state that recovery leaves behind is again a function of the feed.

## Where the code does something else than one would expect

* A gap of more messages than the configured maximum is asked for with a first request that holds one message more
  than the maximum (recoverymgr.h:115-122). `Recovery.ChunksPartition` gives the exact sizes; `Recovery.ChunksFit`
  says that all requests keep to the maximum if and only if the gap does.
* The receive loop goes round for ever on a record of unknown type, and on a recovery response of which exactly nine
  bytes have arrived (recoverymgr.h:173-190, 347-351). The model reports both as `Stuck`. `Framing.StatusIsExact` and
  `Framing.LoopStatusIsExact` say for all bytes and all pieces exactly when, without reference to the decoder, and
  `Answers.AnswerOutcome` says it for an answer by the number of bytes that have come. `Answers.NineAndOneHang` and
  `Answers.HeartbeatHangs` are inputs that show it. `Framing.FramingRefinesDecoding` says exactly when the cutting
  into pieces matters: when a piece other than the last ends nine bytes into a response.
* A recovery response is taken as a refusal when its status is 'Y', the code of the message type, and as a success
  on every other status, the error code 'E' included (recoverymgr.h:178): `Answers.ErrorStatusPasses`.
* With two producers or more the logger can deadlock, whatever its size: the wait compares the shared write index and
  not the ticket drawn (logs.cpp:56-61). `LoggerRing.DeadlockNeedsTwo` is an if-and-only-if.
* The strikes of the call and the put of a group are never compared (main.cpp:1035-1072). `Strikes.StrikesMayDiffer`
  is a buffer whose reported group has two; `Strikes.OneStrikeWhenCompared` says that comparing two variables the test
  already holds would settle it, and `Strikes.OneStrikeByContracts` says for which sets of contracts it can happen.
* A window that begins and ends with the same leg is not always all of that leg or just put out: a deletion by strike
  can lay bare, in front, the leg that is being traded on (main.cpp:708-711). `Ends.StrikesMayMixEnds` is a buffer that
  shows it, `Ends.StepEnds` says for every step exactly when it happens, and `Ends.RunEnds` that it never does while
  all options have one strike.
* The leg flags and the last expiry go stale after a balanced window has been put out (main.cpp:823-834). With
  positive quantities nobody can tell: `Splitter.StaleFlagIsHarmless`.

## Model

| member | source | states |
|---|---|---|
| Erase.OfExpiryKeeps | main.cpp:918-945 | Deleting by expiry keeps every trade of that expiry as often as it occurred, and nothing else. |
| Erase.DeletePacketTillExpiryDate | main.cpp:918-945 | As many passes as there were trades, each erasing the first trade of another expiry, are one stable filter. |
| Erase.EraseFirstOtherExpiry | main.cpp:927-941 | One pass erases one trade unless nothing is left to erase, and never changes what the filter gives. |
| Erase.DeletePacketTillStrikePrice | main.cpp:947-976 | The passes by strike filter the part of the window before the first future and leave the rest. |
| Erase.EraseFirstOtherStrike | main.cpp:956-973 | One pass; it stops the whole deletion at a future only when the filter has nothing more to drop. |
| Erase.OfStrikeKeeps | main.cpp:947-976 | Deleting by strike adds and duplicates nothing. |
| Erase.DropRunIsMaximal | main.cpp:904-913 | What second-level validation drops is a run of one leg, and what remains is a suffix that begins with another. |
| Erase.SecondLevelOrderValidation | main.cpp:888-916 | When some trade is of another leg it terminates, drops exactly the maximal leading run, and leaves a non-empty window. |
| Erase.OfExpiryIsStable | main.cpp:918-945 | Every trade is kept or dropped on its own and in its place: kept if it is of the expiry. |
| Erase.OfStrikeIsStable | main.cpp:947-976 | With no future before it a trade is kept if it is of the strike; a future and all that follows it are kept. |
| Window.LastOptionCounts | main.cpp:767-806 | The strike carried along is that of the last option of the window. |
| Window.LegsAddUp | main.cpp:749-819 | The three leg quantities add up to all that was traded. |
| Exact.PrunedByExpiry | main.cpp:700-707 | A trade of another expiry than the last one deletes all trades but those of its own expiry. |
| Exact.PrunedByStrike | main.cpp:708-711 | Otherwise an option of another strike than the last option deletes the options of other strikes before the first future. |
| Exact.NotPruned | main.cpp:700-727 | Otherwise nothing is deleted. |
| Exact.OtherLegEnters | main.cpp:729-821 | A leg traded last or not at all just enters, and the window is settled. |
| Exact.ReturnPutsOut | main.cpp:738-741 | A leg that comes back to a window balanced over three tokens puts it out as it stands. |
| Exact.ReturnDropsRun | main.cpp:742-748 | A leg that comes back to any other window leaves it from the first trade of another leg on: exactly the maximal leading run is dropped. |
| Exact.TwoSidedClears | main.cpp:676-691 | A trade with both sides or neither clears the window. |
| Exact.SettlesWhole | main.cpp:823-834 | A window of three tokens with equal leg quantities is put out whole. |
| Exact.SettlesCut | main.cpp:835-877 | One that is uneven but has a matching stretch around its middle is put out as that stretch, its front part backwards. |
| Exact.SettlesNothing | main.cpp:823-882 | Every other window stays and nothing is put out. |
| Exact.CutWhenMatched | main.cpp:835-877 | A group can be cut if and only if some stretch has, before and after the middle, the quantity of the leg traded last before the third leg appeared. |
| Ends.StepEnds | main.cpp:700-883 | For every step: exactly when the window it leaves begins and ends with the new trade's leg and holds another. |
| Ends.RunEnds | main.cpp:637-886 | While all options have one strike, such a window has just been put out balanced, and only that leg was traded since. |
| Ends.StrikesMayMixEnds | main.cpp:708-711 | A buffer with more strikes whose window begins and ends with a call around a future though nothing was put out. |
| Blocks.BlockIsPutOut | main.cpp:637-886 | One run each of a future, a call and a put, in any order, of one expiry, one strike and equal totals, is put out as one group by its last trade and no earlier. |
| Blocks.BlockPasses | main.cpp:978-1096 | Such a group with agreeing sides passes the test, however many trades each leg has. |
| Blocks.BlockIsScreened | main.cpp:484-635 | Such a buffer passes the screening. |
| Blocks.BlockIsReported | main.cpp:274-452 | A closing message that finds such a buffer reports exactly one record, of the whole block, with strategy 1 for bought and 2 for sold futures. |
| Splitter.GetExtraDetails | main.cpp:1099-1155 | From reset values, recomputes every detail of a window exactly, flags and last expiry included. |
| Splitter.PruneWindow | main.cpp:700-727 | A differing expiry filters the window by expiry, else a differing option strike by strike; the details match what remains. |
| Splitter.StaleFlagIsHarmless | main.cpp:735-748 | If a leg is flagged but absent, the window cannot balance and dropping that leg's leading run drops nothing. |
| Splitter.ReturningLegLeavesSome | main.cpp:735-746 | At each call of second-level validation the trade before the new one and the new one survive. |
| Splitter.SubtractThenAdd | main.cpp:743-754 | Taking the new trade's quantity out after the recount and adding it again leaves details that agree with recomputation. |
| Splitter.DropLeadingRun | main.cpp:743-747 | The window becomes the rest after the leading run, the details its recount less the new trade. |
| Splitter.LegReturns | main.cpp:735-748 | A returning leg puts the window out when it balances over three tokens, and otherwise drops its leading run. |
| Splitter.AdmitTrade | main.cpp:729-821 | The switch over the three legs does what the step on recomputed values does, and the details keep tracking the window. |
| Splitter.SettleWindow | main.cpp:823-882 | A balanced window of three tokens is put out and cleared; else a group is cut from it if one can be; the details keep tracking. |
| Splitter.Slide | main.cpp:671-883 | One turn of the loop, carrying quantities, tokens, strike, leg and flags along, is the step that recomputes them all. |
| Splitter.SplitTrade | main.cpp:637-886 | The groups put out are those of the run of recomputing steps, or the whole buffer when it is three trades of three tokens. |
| Splitter.RunKeepsPart | main.cpp:670-883 | At every point the window holds only trades already read, none more often than read. |
| Regroup.ThirdLegIsFound | main.cpp:1157-1254 | With all legs present 0 < start < end < size, and start and end are where the second and third legs first appear. |
| Regroup.GetMiddleQty | main.cpp:1157-1254 | The search returns those positions and the running total, just before end, of the leg traded last; without a third leg it returns no end. |
| Regroup.TakeUntilIsShortest | main.cpp:848-855 | A run stops at the first trade that brings its total to the target, and otherwise takes everything. |
| Regroup.TakeBack | main.cpp:848-855 | The first run goes back from the start index and is the shortest that reaches the quantity. |
| Regroup.TakeOn | main.cpp:863-871 | The third run goes on from the end index and is the shortest that reaches the quantity. |
| Regroup.BuildGroup | main.cpp:835-873 | The group is complete exactly when both outer totals equal the middle quantity. |
| Regroup.RegroupedIsStretch | main.cpp:835-877 | A group that is put out uses one contiguous stretch of the window around the middle, outer totals equal to the middle quantity. |
| Regroup.RegroupedIsPart | main.cpp:835-877 | No position of the window is used twice. |
| Screening.ScanTokens | main.cpp:508-553 | The scan of the ordered token set finds a match if and only if for some token the largest future, call and put tokens up to it agree in strike and expiry. |
| Screening.ThreeTokensMatch | main.cpp:506-553 | With exactly three tokens a match means one of each leg, of equal strike and expiry. |
| Screening.ValidateTradeMsgRecords | main.cpp:484-635 | The quadratic scan returns true if and only if the single-pass predicate holds. |
| Screening.RescanForgets | main.cpp:585-623 | Marking the sides again over the whole buffer forgets how they stood before. |
| Screening.ConRevIsPairs | main.cpp:978-1096 | The test of a group by pairs of positions: passed if and only if all trades are one-sided, a later trade of a leg has the expiry of the trade before it and the strike of the earlier, the quantities are equal, all legs are present and the sides opposed. |
| Screening.AgreesWithLeg | main.cpp:1010-1061 | A trade agrees with what is remembered if and only if it follows the trades before it. |
| Screening.IsValidateConRev | main.cpp:978-1096 | Returns true if and only if all trades are one-sided, later trades of a leg agree with what came before, the three quantities are equal, all legs are present and the sides are opposed. |
| Groups.AdmittedIsRejected | main.cpp:738-741 | A window put out in the middle of the switch is balanced plus one positive trade, so no such group is ever accepted. |
| Groups.StepConserves | main.cpp:671-883 | One turn of the loop: accepted groups and window together hold no trade more often than the window before and the new trade. |
| Groups.AcceptedTradesAreDisjoint | main.cpp:637-886 | Over a buffer: the accepted groups together use no trade more often than it was buffered, and no more volume of any leg. |
| Groups.NoTradeInTwoGroups | main.cpp:637-886 | With distinct sequence numbers no trade belongs to two accepted groups. |
| Groups.AcceptedGroupShape | main.cpp:823-876 | Every accepted group has exactly three tokens, one to a leg, equal positive volumes, and opposed sides. |
| Groups.AcceptedIsPart | main.cpp:637-886 | Every accepted group is a part of the buffer. |
| Groups.GroupsShareOneExpiry | main.cpp:637-643 | After screening, all trades of any group put out share one expiry, although the group's own test does not compare it across legs. |
| Strikes.OneStrikeWhenCompared | main.cpp:1030-1072 | A group that passes has a single option strike if and only if the last call strike equals the last put strike. |
| Strikes.StrikesMayDiffer | main.cpp:955-967 | A concrete buffer in four contracts passes its screening and yields an accepted group of two strikes. |
| Strikes.TwoStrikeBuffer | main.cpp:955-967 | Any call and put of different strikes that expire with a future are reported together by some buffer of contracts that can pass the screening. |
| Strikes.OneStrikeByContracts | main.cpp:1030-1072 | For every set of contracts: all groups ever reported of them have one strike if and only if the set cannot pass the screening or every call and put that expire with a future have equal strikes. |
| Strikes.ThreeContractsMatch | main.cpp:639-643 | Buffers in exactly three contracts are only ever reported with one strike. |
| Pricing.Tally | main.cpp:311-361 | The loop gives each leg's volume and value, the last future's expiry, the last option's strike, and the strategy of the last future's side. |
| Pricing.Averages | main.cpp:364-366 | The three truncated averages, all divisors being non-zero. |
| Pricing.PriceGroup | main.cpp:296-420 | Exactly the record of the group is enqueued, unless its futures leave no side standing. |
| Pricing.AcceptedIsPriceable | main.cpp:364-366 | For an accepted group no division is by zero and a side stands, so it is reported. |
| Pricing.StrategyIsTheSides | main.cpp:325-333 | Strategy 1 if and only if the last future and put are bought and the last call sold; 2 if and only if the reverse. |
| Pricing.StrikeAddsUp | main.cpp:338-356 | An option's value is its turnover plus the strike times its volume. |
| Pricing.DivideShift | main.cpp:364-366 | Adding a multiple of the divisor before truncated division adds that multiple after it. |
| Pricing.SpreadIsNearlyExact | main.cpp:383-407 | With non-negative prices and strikes exact minus reported spread lies strictly between -2 and 1 for a conversion, -1 and 2 for a reversal; with one strike for call and put the strike cancels through the truncation. |
| Pricing.DivideTruncates | main.cpp:364-366 | Division is towards zero: the remainder is smaller than the divisor and of the dividend's sign. |
| Pricing.RecordMeans | main.cpp:381-407 | The record field by field: number and time of the last trade, expiry of the last future, strike of the last option, whole lots, strategy 1 if and only if the last future is bought, and a spread within the bounds of the exact one. |
| Pricing.PlainConversion | main.cpp:383-383 | A future at 90, a call of strike 100 at 10 and a put of strike 100 at 5 are reported with spread 15. |
| Engine.TradedLotsAreWhole | main.cpp:455-460 | A trade counts as many whole lots as its quantity holds. |
| Engine.ReportGroups | main.cpp:297-448 | The records enqueued are those of the accepted groups, in order. |
| Engine.OneRecordEach | main.cpp:297-448 | Each accepted group is reported once. |
| Engine.ReportsAccepted | main.cpp:277-448 | Closing a screened buffer enqueues one record per accepted group, in order. |
| Engine.TradeEngine.CloseBuffer | main.cpp:277-452 | Screening, splitting, filtering and reporting; buffer and tokens are emptied, lots unchanged. |
| Engine.TradeEngine.HandleMessage | main.cpp:274-480 | The switch over the message type, on the whole state. |
| Engine.TradeEngine.WriteDataInFile | main.cpp:259-482 | One message: the state moves by one step, the buffer stays one-sided and the token set stays that of the buffer. |
| Engine.ProcessKeepsSound | main.cpp:455-473 | Every message keeps the buffer listed, positive and one-sided, and the token set equal to its tokens. |
| Engine.StreamIsItsRuns | main.cpp:259-482 | Over every stream the buffer is the one-sided trades since the last closing message, and the records are the reports of each closed run, one after the other. |
| Mirror.RunSwap | main.cpp:637-886 | Exchanging buyer and seller in a buffer exchanges them in every group put out and in the window, and changes nothing else. |
| Mirror.ConRevSwap | main.cpp:1087-1089 | A group passes the test if and only if its mirror image does. |
| Mirror.RecordSwap | main.cpp:381-407 | The mirror image of a group has the same record with strategies 1 and 2 exchanged and the spread negated. |
| Mirror.MirroredStream | main.cpp:259-482 | Exchanging buyer and seller in a whole stream gives the same records in the same order, strategies exchanged and spreads negated. |
| Recovery.TrailersAreIdle | main.cpp:476-479 | END_OF_MASTER messages, which recovery counts but does not hand on, change nothing in the engine. |
| Recovery.ChunksPartition | recoverymgr.h:100-145 | The requests partition the gap: M+1 numbers, then M each, then a remainder that is left out exactly when the distance is a positive multiple of M. |
| Recovery.ChunksFit | recoverymgr.h:113-136 | Every request is for at most M messages if and only if the gap is. |
| Recovery.RecoveryManager.HandOn | recoverymgr.h:204-345 | A message received is handed to the engine once, a trailer out of an answer not at all. |
| Recovery.RecoveryManager.Deliver | recoverymgr.h:161-355 | The messages of an answer are received in order, and count and last number follow them. |
| Recovery.RecoveryManager.RecoveryPackets | recoverymgr.h:365-454 | One attempt makes one request, for exactly the range, and delivers a prefix of it, possibly empty; it succeeds only if the last number is the end of the range. |
| Recovery.RecoveryManager.Retry | recoverymgr.h:84-95 | One turn of the retry loop asks from the first missing number and extends what has been delivered. |
| Recovery.RecoveryManager.RetryUntilComplete | recoverymgr.h:83-95 | The retry loop delivers what is missing of the range, once and in order, by requests that all end where the range ends. |
| Recovery.RecoveryManager.RecoverChunk | recoverymgr.h:122-126 | A chunk is received by requests of which the first begins where it begins and all end where it ends. |
| Recovery.RecoveryManager.ForceRecoveryPackets | recoverymgr.h:71-98 | On return the whole range has been delivered once and in order, every retry having begun at the first missing number; an inverted range is an error and delivers nothing. |
| Recovery.RecoveryManager.NextFullChunk | recoverymgr.h:118-135 | One turn of the loop over full chunks asks for the next planned range and receives it. |
| Recovery.RecoveryManager.RecoverFullChunks | recoverymgr.h:113-136 | The loop over full chunks asks for exactly the planned ranges and returns early exactly when they end the gap. |
| Recovery.RecoveryManager.SplitRecoveryDataRequest | recoverymgr.h:100-145 | Exactly the numbers of the gap are received, once and in order; the requests made, and no others, run chunk by chunk through the planned ranges. |
| Recovery.Receiver.OnPacket | main.cpp:217-248 | Whatever packet arrives, exactly 1..last have been received in order and once each, and last is the larger of itself and the packet's number. |
| Recovery.Receiver.ReceiveAll | main.cpp:214-249 | For every arrival pattern and every retry pattern the engine's state, records included, is that of the loss-free run to the same number. |
| Framing.StatusIsExact | recoverymgr.h:161-362 | For every buffer: decoding hangs if and only if whole messages and passing responses are followed by a record of unknown type or just nine bytes of a response; it fails if and only if they are followed by a refusal; else they are followed by too few bytes. |
| Framing.CarryIsShort | recoverymgr.h:353-358 | The carry-over is at most 44 bytes, so there is always room to receive. |
| Framing.ParseGoesOn | recoverymgr.h:417-446 | Decoding a prefix and then the rest behind its carry-over is decoding the whole. |
| Framing.ParseStops | recoverymgr.h:347-351 | A refusal or an unknown record is final whatever bytes follow. |
| Framing.HalfResponseReleased | recoverymgr.h:173-190 | Nine bytes of a response are the one exception: any tenth byte changes the outcome. |
| Framing.HalfIsExact | recoverymgr.h:173-190 | The decoder stops on half a response if and only if what it was given is records that pass and then nine bytes of a response. |
| Framing.LoopStatusIsExact | recoverymgr.h:417-446 | For every cut into pieces: the receive loop hangs if and only if what has arrived after some piece jams the parser, and otherwise fails if and only if a refusal has arrived. |
| Framing.FramingRefinesDecoding | recoverymgr.h:417-446 | For every cut into non-empty pieces, messages, bytes used and outcome equal those of the whole stream if and only if no piece but the last ends nine bytes into a response. |
| Framing.Peek | recoverymgr.h:163-351 | The type switch finds the record at an offset of the buffer. |
| Framing.GetPacketFromMessage | recoverymgr.h:147-363 | Decodes the buffer, updates the counters accordingly, moves exactly the unconsumed tail to its start, and hangs or fails exactly when the buffer jams or is refused. |
| Framing.ReceivePiece | recoverymgr.h:423-445 | One turn of the receive loop is one step of the session. |
| Framing.ReceiveAnswer | recoverymgr.h:417-454 | The receive loop's messages, counters and return value are those of the session over the pieces received; it hangs if and only if some piece jams the parser, and fails if and only if none does and a refusal came. |
| Layout.SizesAdd | nsetbt_mcast_msg.h:42-130 | For every message: its packed size is the sum of its fields' widths, and that is the size the parser takes for its type. |
| Layout.EncodedIsWhole | nsetbt_mcast_msg.h:42-130 | A packed message is a whole message for the parser, and the sequence number read from it is the one packed. |
| Layout.SignedIsRead | nsetbt_mcast_msg.h:42-56 | A signed field packed least significant byte first is read back. |
| Layout.StreamRoundTrip | recoverymgr.h:161-362 | Parsing any stream of packed messages gives back exactly those messages, to the last byte. |
| Reader.TradeIsRead | nsetbt_mcast_msg.h:107-117 | A packed trade is read with the fields that were packed. |
| Reader.HeaderIsRead | nsetbt_mcast_msg.h:42-56 | Type, number and stream of every packed message are read back. |
| Reader.ReadingReads | nsetbt_mcast_msg.h:42-117 | This reading keeps number and type, so all that is proved over the wire holds of it. |
| Reader.KindsMean | main.cpp:274-480 | The engine closes its buffer on orders and spread trades and on nothing else, takes plain trades and nothing else, and recovery withholds the end of the master data and nothing else. |
| Answers.BrokenOffRun | recoverymgr.h:161-358 | Any records broken off at any byte decode to the messages among those that came through whole before the first refusal; the outcome follows from where they break off. |
| Answers.AnswerOutcome | recoverymgr.h:417-446 | Of any records sent, broken off anywhere and cut anywhere: the loop hangs if and only if some piece ends nine bytes into a response, and otherwise fails if and only if a whole refusal came. |
| Answers.AnswerDeliversPrefix | recoverymgr.h:417-446 | A response and messages asked for, broken off and cut anywhere: a consecutive prefix is delivered; the loop hangs if and only if a piece ends after the ninth byte, fails if and only if none does and the response came whole and refused, and otherwise delivers every message that came whole. |
| Answers.AnswerIsAnAttempt | recoverymgr.h:417-454 | For every answer, refused or broken off by an error record too, count, last number and messages handed on are those of some first k of the messages asked for. |
| Answers.NineAndOneHang | recoverymgr.h:173-190 | A granting response received as nine bytes and one hangs the loop; received at once it does not. |
| Answers.HeartbeatHangs | recoverymgr.h:347-351 | A heartbeat behind any records that pass hangs the parser, whatever follows. |
| Answers.ErrorStatusPasses | recoverymgr.h:178-187 | A response with the error status is skipped like a success, and parsing goes on behind it. |
| Wire.ReadHanded | recoverymgr.h:328-345 | What is handed on, read as messages, is the messages delivered without the END_OF_MASTER trailers. |
| Wire.AnswerMeetsAttempt | recoverymgr.h:417-454 | Every outcome of the byte-level receive loop is one that recovery's attempt allows, and what it hands on takes the engine, from any state, where those messages of the feed take it. |
| Wire.ReceiveRange | recoverymgr.h:417-454 | An attempt over bytes leaves the engine, records included, where the delivered numbers of the feed leave it; it hangs if and only if a piece ends nine bytes into a response. |
| LoggerRing.SlotIsRemainder | log.h:130-130 | The slot of a ticket is its remainder by the size of the ring. |
| LoggerRing.StepKeepsInv | logs.cpp:56-110 | Every atomic step of any producer or of the consumer keeps the ring's invariant. |
| LoggerRing.RingIsSafe | logs.cpp:56-63 | Over all schedules and any number of producers: past the wait only once the consumer has finished the ticket a lap earlier, no slot written while full or being read or by two at once, output in ticket order with none lost or repeated. |
| LoggerRing.NothingIsLost | log.h:129-136 | Over all schedules every ticket drawn is out, or in the consumer's hands with its own text, or still held by its producer, or in its slot with the flag up. |
| LoggerRing.DeadlockIsFinal | logs.cpp:99-106 | From a deadlock no schedule gets another message out. |
| LoggerRing.OneProducerNeverBlocks | log.h:129-136 | With one producer no reachable state has producer and consumer both blocked. |
| LoggerProgress.DeliversUnlessStuck | logs.cpp:99-125 | In every reachable state, for any number of producers, with a message drawn for and not yet out: some schedule gets one out if and only if the consumer's next slot does not wait for a producer that waits for the consumer. |
| LoggerProgress.StuckIsFinal | logs.cpp:99-106 | From such a state no schedule gets a message out. |
| LoggerProgress.OneProducerDrains | log.h:129-136 | With one producer some schedule leads from every reachable state to one in which every message drawn for is out, in order. |
| LoggerRing.TwoProducersCanDeadlock | logs.cpp:56-61 | With two producers or more, and whatever the size, some schedule leads into the deadlock. |
| LoggerRing.DeadlockNeedsTwo | logs.cpp:56-61 | A deadlock can be reached if and only if there are at least two producers. |

## Left out

- Tokens that are not in the contract map: the code dereferences a null or a stale pointer; the model requires every traded token to be listed.
- Contracts of an instrument type other than future, call and put, and trades of zero or negative quantity.
- 32-bit overflow and the narrowing of 64-bit averages: quantities, values and prices are mathematical integers.
- Order ids as doubles: only whether each is zero after the cast matters, so they are integers.
- Contract names, console output, local time and the count of trades in a group: presentation only.
- Groups.GroupsShareOneExpiry: requires that no expiry is zero, which the splitting loop uses to mean that there is none yet.
- Pricing.SpreadIsNearlyExact: requires non-negative prices and strikes, where truncation goes one way.
- Groups.AcceptedGroupShape: speaks of the side of the last trade of each leg, because the code keeps no other.
- Recovery.RecoveryManager.RecoveryPackets: works on numbered messages; that every outcome over bytes is one of its outcomes is Wire.AnswerMeetsAttempt. Attempts that hang never return, and are not among them. How often an attempt may deliver nothing is bounded by a field, without which the retries need not end.
- Framing.GetPacketFromMessage: hands on messages as the bytes of their frames, and treats the overlapping memory copy as a move. Reader.ReadTrade reads trades; the cast of a double order id to an integer is left open, and other bodies are not read.
- Framing.ReceiveAnswer: where the original would go round for ever, it reports Stuck and returns; the condition for it is exact.
- Sockets, the delay between requests and clocks: an attempt's outcome and the bytes of each receive are nondeterministic.
- The shared-memory queues: the records of the engine are the enqueues attempted.
- Reference parameters and vectors passed between the engine's functions are values passed in and returned.
- Local variables that SplitTrade sets and never reads.
- The logger's exit and drain, its files and its log levels; its atomics are sequentially consistent and the move of a record is one step.
- Files of contracts, configuration, processor affinity and the feed's set-up.
