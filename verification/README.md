# A verified model of the node's block window, confirmations, transactions and histories

This project models the parts of the go-gachain node that hold real algorithms, and proves what they promise.
`dafny verify dfyconfig.toml` checks all of it.

**The block window** (`BlockTable`, `WindowSteps`, `ChainWindow`, `WindowReads`). A goroutine polls the block
table into a 100-slot array; websocket readers walk it backwards. `WindowSteps` cuts the writer into its single
assignments. Whatever assignment it has just made, also half-way through the overlapping copy of a compaction, a
reader gets exactly the newest ten entries above its mark among those appended. `ChainWindow.ChainCache` is the
window itself, an array and two integers; its `Poll` is shown to be the writer of `WindowSteps` run to the end.
Rows are lost from the window's log when more than 30 arrive between two polls, but never among the last 30, so
`UpdateChain` always answers as the plain query over the table of the last successful poll would: number, time,
transactions and address of each of the newest ten rows above its mark. `WindowReads` says when a reader in the
middle of a poll gets an answer the table never had.

**The confirmation daemon** (`ProbeRound`, `ProbeReports`, `Confirmations`, `ScanRuns`). One round is a
transition system of the main goroutine, a worker and a checker per host, their channels and timeouts; probes of
earlier rounds stay around. All goroutines read the shared loop variable, as Go does before 1.22. The scan over
blocks is a class with the confirmations table, for any threshold. `ProbeReports` follows each answer from the
checker's report, or the timeout, to main. `ScanRuns` shows that whole concurrent runs of the daemon leave the
rows of that sequential scan, each the tally of what its checkers reported.

**The wire format** (`Bytes`, `WireCode`, `Text`, `BlockBody`, `Frames`, `TxTable`, `SystemParser`, `Senders`,
`Testnet`). `WireCode` is the length codec of `packages/lib/lib.go` itself. `Frames` is `SaveQueue` with its
twenty-six serialized types; `SystemParser` is the node's parser, with the fields each type's `Init` declares;
`TxTable` compares both with the table of types and the parsers' own field lists. `Senders` says of what the
node reads who it is from, what each field holds and which requests never get there. `Testnet` is the second
producer of two of the types. `BlockBody` is the block explorer's loop.

**Contract transactions** (`Pieces`, `ContractTx`, `ContractParser`, `SignedString`, `SignedHeading`). The
string a user signs, the bytes that are queued, and the string the node's parser rebuilds and checks the
signature against come from three loops over the same parameter declarations. `SignedString` says exactly when
the first and the last agree: for every contract without its signature parameters, and as a whole where those
come last. `SignedHeading` reads both strings, and the queued bytes, piece by piece.

**Histories** (`RollbackLog`, `WrittenCells`, `Histories`, `WalletHistory`). `RollbackLog` is the writer of the
shared rollback log and its undo; the walkers read it. `WrittenCells` tells from the writes alone what a run
leaves in every cell, and what the next record saves. `StallDetector` and `Money` are the small machines behind
`need_reload` and the amounts on the pages.

## What the code does not do

Where a promise fails, the model keeps the code's behaviour and the exact condition is proved.

- A compaction breaks the order of the ids below the offset from its first copy to its end
  (`WindowSteps.IdsIncreaseBelowOffset`, reached in `WindowReads.CompactionIsReached`); readers are not affected.
- When more than 30 rows arrive between two polls, a reader in the middle of the second may get an answer that
  passes over the skipped rows and that no state of the table gives (`WindowReads.ReadWithinPoll`); the first poll
  of a node with 31 blocks does it (`WindowReads.StraddlingReadIsReached`).
- The comment at `packages/daemons/confirmations.go:79` speaks of the last five blocks. The loop stays
  strictly above its start, so the block right after the last confirmed one is never probed
  (`Confirmations.TurnRange`).
- Prepared and rebuilt signing strings differ for amounts of zero, upper-case hexadecimal, numbers that are not
  written canonically, negative addresses in unsigned parameters, and bool or map parameters
  (`SignedString.NodeChecksWhatWasSigned`, with a transaction in `SignedString.ZeroAmountIsMisread`). The page
  appends the signatures of signature parameters at the end (`static/js/index.js:1621`), the parser reads them
  where they are declared (`SignedString.SignatureInFrontIsMisread`). Contracts numbered below 128 are taken for
  system transactions (`SignedString.SentIsParsed`).
- A field of 32 MiB or more is dropped by the parser (`SystemParser.LongFrameIsNotReadBack`). `SaveQueue` accepts
  times of more than 32 bits, which the node cannot read back and which may share their bytes
  (`SystemParser.LongTimeIsNotReadBack`, `SystemParser.TimesShareBytes`). A field cut short is read as an empty one
  without an error (`SystemParser.CutFieldIsEmpty`).
- The testnet producer's state id is the constant `0` of type int, for which the encoder has no case, so the
  field is empty; it is still read as 0. Its new-state frame carries the public key as hexadecimal text
  (`Testnet.PublicKeyArrivesAsHex`).
- Undoing an update does not restore NULL or a non-empty value of a byte column: the first comes back as the
  text "NULL", the second as its own hexadecimal text (`RollbackLog.NullComesBackAsText`,
  `RollbackLog.ByteComesBackAsDigits`).
- A rollback record holds the updated columns only, so a history shows those and not whole row versions. Page
  and contract views read the row in their first round, so they show 29 and 9 records.
- A node that is nearly caught up reports block -1 and time -1, and is told to reload after a minute of that
  (`StallDetector.CaughtUpNodeIsTold`, `StallDetector.CaughtUpNodeIsToldOnce`).
- The account and wallet formatters differ on "0", "" and "NULL" (`Money.FormattersAgree`).

## Assumptions

Rows of the block table are immutable, appended, with increasing positive ids. One `UpdateChain` call is
one step. Each daemon, page or probe reads the clock once per call. A probe returns any string, or never
returns before the timeout; "0" stands for every failure. Strings are byte strings. What `hex.DecodeString`
leaves in its result for malformed text is a parameter; for an odd number of digits it is one of the two
results of Go's releases, the whole pairs or nothing. Address conversion, `strings.TrimSpace`, floating-point
text, decimal text that is not a plain integer, key encryption and signatures are parameters too. Integer
widths are modelled where the code has them.

## Model

| member | source | states |
|---|---|---|
| BlockTable.NewestIsDescend | packages/controllers/getchain.go:70-71 | on increasing ids, "above the mark, newest first, at most n" is a walk down from the end that stops at the mark |
| BlockTable.DescendTakesTail | packages/controllers/getchain.go:70-71 | the query's answer is the table's last k rows reversed, with k as large as mark and limit allow |
| BlockTable.QueryIsNewestTen | packages/controllers/getchain.go:54-90 | entry i of the answer shows id, time and transactions of the i-th newest row, and its wallet's address or none for wallet 0; there are as many entries as rows above the mark, at most ten |
| WindowSteps.WalkIsQuery | packages/controllers/getchain.go:54-63 | where the last n log entries stand right below the offset, the backward walk over the slots is the query over the log |
| WindowSteps.TickKeepsInv | packages/controllers/getchain.go:72-92 | every single assignment of the writer is possible (no index out of bounds) and keeps the window invariant |
| WindowSteps.EveryReadIsTheQuery | packages/controllers/getchain.go:54-97 | in every run, between any two assignments, an atomic reader gets exactly the newest at most ten rows of the log so far above its mark, each with its id, time, transactions and address; the offset stays in 0..100 |
| WindowSteps.IdsIncreaseBelowOffset | packages/controllers/getchain.go:74-79 | ids below the offset are strictly increasing if and only if no compaction is between its first copy and its end |
| WindowSteps.CopyReachesNext | packages/controllers/getchain.go:75-77 | although source and destination overlap, each copy reads a slot not yet overwritten |
| WindowSteps.SettleAppendsBatch | packages/controllers/getchain.go:80-92 | a finished poll has appended its whole batch, oldest first, to the log and changed nothing else in it |
| ChainWindow.PollRestoresTail | packages/controllers/getchain.go:70-92 | whatever number of rows arrived, log plus batch again ends with the table's last 30 rows, and an empty answer means no new rows |
| ChainWindow.WindowServesTable | packages/controllers/getchain.go:54-63 | the walk over a settled window answers as the query on the table last seen would |
| ChainWindow.WalkBack | packages/controllers/getchain.go:54-63 | the loop returns the walk, and the newest id it returns (0 when none) |
| ChainWindow.CopyDown | packages/controllers/getchain.go:74-79 | the in-place copy loop leaves exactly the previous last 50 entries, in order, in the first 50 slots and every other slot as it was |
| ChainWindow.ChainCache.UpdateChain | packages/controllers/getchain.go:54-63 | at all times the answer shows the newest ten rows above the mark of the table as of the last successful poll: id, time, transactions, and the address unless the wallet is 0; and the newest id |
| ChainWindow.ChainCache.Append | packages/controllers/getchain.go:80-92 | the append loop runs the writer from its appending phase to the end |
| ChainWindow.ChainCache.Take | packages/controllers/getchain.go:72-93 | mark, compaction and appends together are the writer begun on the batch and run to the end |
| ChainWindow.ChainCache.Poll | packages/controllers/getchain.go:66-97 | one turn keeps the window standing for the table it saw; a failed query or empty answer changes no field |
| WindowReads.ReadWithinPoll | packages/controllers/getchain.go:54-92 | in the middle of a poll the answer is the query on some state the table went through if and only if it does not straddle skipped rows: fewer than ten of the fetched rows are in, and the mark is below the newest skipped row |
| WindowReads.OffsetAfterPoll | packages/controllers/getchain.go:72-92 | a compaction down to 50 happens exactly when offset and fetched rows pass 100; the mark becomes the newest row |
| WindowReads.StraddlingReadIsReached | packages/controllers/getchain.go:54-92 | the first poll of a node with 31 blocks, one row in: the answer is the query on no state of the table |
| WindowReads.CompactionIsReached | packages/controllers/getchain.go:74-79 | a run of four polls that breaks the order of the ids below the offset |
| ProbeRound.NextKeepsInv | packages/daemons/confirmations.go:129-149 | every step of main, worker, checker or timeout keeps the round's invariant |
| ProbeRound.RoundOutcome | packages/daemons/confirmations.go:137-149 | when the gather loop ends, main has exactly one answer per host, good + bad is the number of hosts, and good is the number of hosts that answered with the hash |
| ProbeReports.TakenReportIsSent | packages/daemons/confirmations.go:222-234 | in every run: once a worker took its checker's report it sends that report, and still holds it after main has received it |
| ProbeReports.SentIsAccounted | packages/daemons/confirmations.go:222-234 | a worker sends or has sent an answer if and only if it took a report of that answer, or timed out and the answer is "0" |
| ProbeReports.GoodCountsReports | packages/daemons/confirmations.go:137-149 | when the gather loop ends, good is the number of this round's hosts whose taken report was the hash (or that timed out, for the hash "0"), bad that of the others |
| ProbeRound.EveryProbeAsksItsBlock | packages/daemons/confirmations.go:130-136 | no goroutine of any round asks about another block, although all read the shared loop variable |
| ProbeRound.NeverDeadlocks | packages/daemons/confirmations.go:129-149 | an open round always has an enabled step even if no probe ever returns |
| ProbeRound.LateCheckerCanFinish | packages/daemons/confirmations.go:222-234 | whatever became of its worker, a checker's one-slot channel has room for its answer |
| ProbeRound.EveryStepCounts | packages/daemons/confirmations.go:129-149 | every step inside a round, late checkers included, lowers a bound |
| ProbeRound.RoundsAreBounded | packages/daemons/confirmations.go:129-149 | no schedule makes more steps than that bound without a new round |
| Confirmations.Gather | packages/daemons/confirmations.go:137-149 | st1 counts the answers equal to the hash, st0 all others |
| Confirmations.ConfirmationTable.Upsert | packages/daemons/confirmations.go:150-163 | the block's row is replaced or added behind the others; every other block's row is as before; one row per block |
| Confirmations.ConfirmationTable.Scan | packages/daemons/confirmations.go:100-168 | the scan stops at a stored block with enough good answers, all stored blocks above have fewer, exactly the blocks looked at have fresh rows, all other rows are untouched |
| Confirmations.ConfirmationTable.Turn | packages/daemons/confirmations.go:78-168 | the same for the range chosen from the last block and the last confirmed one |
| Confirmations.TurnRange | packages/daemons/confirmations.go:89-100 | the blocks a turn looks at: from the second after the confirmed one when more than five wait, otherwise only the last |
| Confirmations.ConfirmedAfterScan | packages/daemons/confirmations.go:100-168 | a scan that stops makes its block the confirmed one; one that runs through leaves none in its range |
| Confirmations.ZeroThresholdChecksOneBlock | packages/daemons/confirmations.go:165-167 | with the shipped threshold 0 a scan stops at the highest stored block and writes that row only |
| ScanRuns.RunIsAScan | packages/daemons/confirmations.go:100-168 | in every interleaving, once the loop over the blocks has ended, the rows written are those of the sequential scan over the answers main received |
| ScanRuns.RoundIsATally | packages/daemons/confirmations.go:137-163 | the table row of each gathered block holds as good the number of hosts whose taken report was the stored hash, as bad that of the others |
| ScanRuns.ScanGoesOn | packages/daemons/confirmations.go:100-168 | a scan that is not over always has a step its loop allows and that waits for no probe |
| ScanRuns.RoundsAreFew | packages/daemons/confirmations.go:100-168 | main opens at most one round for each block of the range |
| ScanRuns.ScanStepCounts | packages/daemons/confirmations.go:100-168 | every step of a scan lowers the block, or the stage of its round, or the bound within it, so no scan goes on for ever |
| WireCode.EncodeLength | packages/lib/lib.go:61-72 | the loop yields one byte below 128, else 128 plus a count and the big-endian bytes without leading zeros, for every int64 |
| WireCode.LengthCodeShape | packages/lib/lib.go:61-72 | 0 to 127 are coded as themselves; any other number as 127 plus the code's length, then its big-endian bytes, the first of them not zero |
| WireCode.LargeCountIsZero | packages/lib/lib.go:80-97 | a count above eight reads as zero and is skipped with its bytes |
| WireCode.DecodeLengthOfCode | packages/lib/lib.go:80-97 | decoding an encoding followed by anything yields the value and that anything |
| WireCode.DecodeLengthOfCutCode | packages/lib/lib.go:80-97 | a cut encoding decodes to 0 |
| WireCode.EncodeLenInt64 | packages/lib/lib.go:109-117 | the loop appends a count and the little-endian bytes without trailing zeros |
| WireCode.Int64CodeShape | packages/lib/lib.go:109-117 | a count of at most eight, then the little-endian bytes of the number, the last of them not zero |
| WireCode.DecodeInt64OfCutCode | packages/lib/lib.go:32-45 | a cut encoding is an error, unless nothing is left of it, and reads as zero |
| WireCode.DecodeInt64OfCode | packages/lib/lib.go:32-45 | every int64 is decoded back, whatever follows |
| WireCode.MarshalInt32 | packages/lib/lib.go:140-154 | the loop appends the contract number's code |
| WireCode.Int32CodeShape | packages/lib/lib.go:140-154 | below 128 one byte; otherwise 127 plus the code's length and the big-endian bytes of the unsigned number, the first of them not zero |
| WireCode.ReadInt32OfCode | packages/lib/lib.go:197-215 | every int32 is read back, whatever follows |
| WireCode.ReadDataOfCode | packages/lib/lib.go:246-255 | every length-prefixed byte string is read back, whatever follows |
| BlockBody.ContractId | packages/controllers/block_explorer.go:100-106 | the scratch array right-aligns the n bytes after a type byte 128+n and so holds the contract's number; an index out of range is reported |
| BlockBody.SystemTypeIsRead | packages/controllers/block_explorer.go:93-99 | a first byte below 128 is the type |
| BlockBody.ContractNumberIsRead | packages/controllers/block_explorer.go:100-106 | a contract's number as it is marshalled is read back, whatever follows |
| BlockBody.TypeCodes | packages/controllers/block_explorer.go:83-116 | the loop terminates with the split of the body |
| BlockBody.CutBodyListsWholeTransactions | packages/controllers/block_explorer.go:87-116 | a body cut anywhere lists exactly the codes of the transactions that are still whole, in order |
| BlockBody.BodyListsAllTransactions | packages/controllers/block_explorer.go:87-116 | a body of length-prefixed well-formed transactions lists exactly their codes, in order |
| Text.UintTextRoundTrip | packages/utils/utils.go:631-634 | reading a number and printing it gives the text back if and only if it is canonical and fits |
| Text.IntTextRoundTrip | packages/utils/utils.go:619-622 | the same for signed numbers |
| Text.ParseIntOfFormat | packages/utils/utils.go:887-889 | every int64 survives printing and reading |
| Text.NumeralsAreRead | packages/utils/utils.go:619-634 | digits are read as their value or the largest number there is, after a minus sign as its negative or the smallest, after a plus sign as without it |
| Text.OtherTextIsZero | packages/utils/utils.go:619-634 | any other text reads as zero unless its leading digits already overflow |
| Text.HexEncodeOfDecode | packages/controllers/ajax_send_tx.go:121-126 | decoding hexadecimal text and printing it gives the text back if and only if it has no upper-case letter |
| Frames.Header | packages/controllers/save_queue.go:84-688 | which requests a type's own checks refuse, and whose id and which state the others carry |
| Frames.Branch | packages/controllers/save_queue.go:99-688 | each type's branch supplies, in order, the value of every field its parser declares |
| Frames.PageBranch | packages/controllers/save_queue.go:174-628 | the same for the branches of pages, menus, tables, parameters, contracts and signatures |
| Frames.CheckType | packages/utils/utils.go:289-294 | a type name is a word and no numeral above 30 |
| TxTable.TypesHaveTheirNumbers | packages/consts/consts.go:103-139 | every serialized type is sent and listed under the number of its name in the table |
| TxTable.OtherNamesHaveTheirNumbers | packages/consts/consts.go:103-139 | so are the names that have no branch |
| TxTable.DeclarationsAreInits | packages/parser/new_page.go:28 | field by field, with its type: what the model declares for each of the twenty-six types is what that type's Init hands to GetTxMaps |
| Frames.SaveQueue | packages/controllers/save_queue.go:30-720 | exactly the accepted requests are queued, as type byte, four bytes of time and length-prefixed sender and fields, with the hash, type and ids of the status row |
| SystemParser.ParseTransaction | packages/parser/common_parse_transaction.go:35-239 | the slices of every transaction: of a system type by the field loop, of the first block by its structure, of a contract's its type and time |
| SystemParser.FirstBlockIsParsed | packages/parser/common_parse_transaction.go:157-208 | the marshalled transaction of the first block is read back field by field |
| SystemParser.FirstBlockSlices | packages/parser/common_parse_transaction.go:157-208 | its slices are the type 1, the time and the two ids as text, both keys and the host |
| SystemParser.KindDecidesBranch | packages/parser/common_parse_transaction.go:48-162 | a first byte of 128 or more yields type and time exactly when the contract is accepted and something follows them; any other but 1 is read by the field loop |
| SystemParser.GetTxMaps | packages/parser/common_get_tx_maps.go:26-129 | sender, fields and typed values by position, citizen or wallet chosen by the state, and each of its errors |
| SystemParser.MappedExactly | packages/parser/common_get_tx_maps.go:26-129 | fewer than four slices are out of range; maps are made if and only if the number of slices fits the declaration, the type is not 0 and every decimal is one |
| SystemParser.PostedNumbersAreKept | packages/parser/common_get_tx_maps.go:104-105 | a number posted for a field declared int64 prints back to the posted text if and only if that is canonical |
| SystemParser.FrameParsesExactly | packages/parser/common_parse_transaction.go:210-233 | a frame whose last field is not empty is read back slice by slice if and only if every field is below 32 MiB and there are at most eighteen |
| SystemParser.ManyFieldsAreRejected | packages/parser/common_parse_transaction.go:213-216 | nineteen fields or more are an error |
| SystemParser.CutFieldIsEmpty | packages/parser/common_parse_transaction.go:217-231 | a field of which less is there than its length says is read as empty, and ends the loop |
| SystemParser.NegativeLengthIsSkipped | packages/parser/common_parse_transaction.go:213-231 | a negative length is passed over |
| SystemParser.LongFrameIsNotReadBack | packages/parser/common_parse_transaction.go:217-231 | a frame with a field of 32 MiB that is not read back |
| SystemParser.NodeReadsWhatWasQueued | packages/controllers/save_queue.go:99-688 | for all twenty-six types the node reads back type, time, sender and under each declared name the form's value, if and only if the time fits 32 bits, every field is below 32 MiB and the amounts of a transfer are decimals |
| Senders.SenderIsRead | packages/controllers/save_queue.go:84-688 | what the node takes for the sender, type by type: with a positive state the session's citizen, otherwise its wallet; the exceptions of transfers, votes, new states, node keys, wallet edits and new accounts |
| Senders.TypeAndTimeAreRead | packages/controllers/save_queue.go:47-71 | type and time arrive as posted |
| Senders.FieldsAreRead | packages/controllers/save_queue.go:99-688 | under each declared name arrives the form's value of that name; "null" for an empty comment or key; keys decoded, the public one cut to its last 64 bytes; the signature with its length |
| Senders.RefusedExactly | packages/controllers/save_queue.go:30-688 | among well-asked requests exactly those are refused that need a state and have none, whose node key is malformed, or whose new account lacks number, state, sender or a key |
| Senders.TypeNamesExactly | packages/utils/utils.go:289-294 | numerals are type names up to 30; other names if they are words, and their value is at most 30 |
| Senders.FrameBegins | packages/controllers/save_queue.go:99-103 | the queued bytes begin with the type's number in one byte and the time in four, most significant first |
| Senders.QueuedIsListed | packages/controllers/block_explorer.go:93-99 | the explorer lists every queued request under its type |
| SystemParser.QueuedBytesAreUnique | packages/controllers/save_queue.go:65-688 | for all accepted requests: queued bytes are equal if and only if type, sender, fields and the bytes left by the time are |
| SystemParser.SameSourcesSameSignature | packages/controllers/save_queue.go:65-77 | equal fields mean equal signatures, although doubly wrapped |
| SystemParser.TimesShareBytes | packages/utils/utils.go:897-909 | two times leave the same bytes if and only if they are equal, or agree in their first eight digits where one has nine, or both have nine where nothing is decoded |
| SystemParser.LongTimeIsNotReadBack | packages/controllers/save_queue.go:47-50 | every accepted time of more than 32 bits is sent in a request that the node does not read back |
| Testnet.FreshWallet | packages/controllers/ajax_new_state.go:62-74 | the retry loop takes the first draw whose lookup answers 0, within the draws needed |
| Testnet.TransferFrame | packages/controllers/ajax_new_state.go:104-118 | the appends build a frame of the transfer type |
| Testnet.NewStateFrame | packages/controllers/ajax_new_state.go:135-145 | the appends build a frame of the new-state type |
| Testnet.TransferIsReadAlike | packages/controllers/ajax_new_state.go:104-118 | the parser reads it under the declaration SaveQueue's frames have, field for field |
| Testnet.TransferArrives | packages/controllers/ajax_new_state.go:104-118 | the node takes it for a transaction of the administrator's wallet, at the time it was sent |
| Testnet.TransferSays | packages/controllers/ajax_new_state.go:104-118 | its fields: the new wallet, 2e+21, the fixed commission, the comment testnet, no key, the signature |
| Testnet.NewStateIsReadAlike | packages/controllers/ajax_new_state.go:135-145 | likewise for the new state |
| Testnet.NewStateSays | packages/controllers/ajax_new_state.go:135-145 | it arrives as the wallet's, with country, currency, the key's digits and the signature |
| Testnet.PublicKeyArrivesAsHex | packages/controllers/ajax_new_state.go:144 | its public key field decodes to the key and is not the key |
| ContractTx.CheckTx | packages/controllers/ajax_prepare_tx.go:55-117 | exactly the forms of a known contract are accepted all of whose parameters pass their checks; the parameters the browser has to sign by themselves, with what each signature covers |
| ContractTx.SignText | packages/controllers/ajax_prepare_tx.go:85-89 | such a signature covers time, wallet and the trimmed values of the listed parameters |
| ContractTx.Prepare | packages/controllers/ajax_prepare_tx.go:127-187 | the accumulated string is the joined pieces of the parameters that are neither image nor signature; the values are the encrypted keys by parameter |
| SignedHeading.PreparedBegins | packages/controllers/ajax_prepare_tx.go:140 | cut at the commas, the prepared string begins with the contract's number, the time, the session's wallet as an unsigned number, its state, and 1 exactly when no key is stored, each in plain decimal |
| SignedHeading.PlainStringsAreSigned | packages/controllers/ajax_prepare_tx.go:141-180 | behind those five stand the trimmed texts of plain parameters, in declared order and nothing else |
| SignedHeading.SignCovers | packages/controllers/ajax_prepare_tx.go:85-91 | what a signature parameter covers, cut at the commas: time, wallet, and the listed parameters' trimmed texts |
| SignedHeading.RefusedParamExactly | packages/controllers/ajax_prepare_tx.go:92-113 | a posted parameter is refused if and only if a text is missing, is no address, or is no amount |
| SignedHeading.RefusedSignatureExactly | packages/controllers/ajax_prepare_tx.go:61-91 | when preparing, a signature parameter is refused if and only if its tag names an unknown signature |
| SignedHeading.CheckedIsAccepted | packages/parser/common_parse_transaction.go:81-140 | what passes the checks is accepted by the parser, unless an amount is an image or encrypted |
| SignedHeading.ValuesAreKeys | packages/controllers/ajax_prepare_tx.go:146-160 | the browser is given exactly the keys of the encrypted parameters that are neither image nor signature |
| ContractTx.AppendParam | packages/controllers/ajax_send_tx.go:92-127 | one turn of the send loop appends the parameter's encoding, or fails on bad hexadecimal |
| ContractTx.AppendList | packages/controllers/ajax_send_tx.go:97-110 | a list is its count and its length-prefixed items |
| ContractTx.Send | packages/controllers/ajax_send_tx.go:52-146 | the rows that are inserted: the header with its signature field, then the payload, under its hash, type and wallet; none without signature, key or valid hexadecimal |
| SignedHeading.SentLayout | packages/consts/structs.go:47-54 | where number, time, wallet, state and flags stand in the queued bytes of a contract with one byte of state |
| SignedHeading.EncodedShape | packages/controllers/ajax_send_tx.go:92-127 | the bytes of each kind of parameter: widths, byte order, counts and lengths |
| SignedHeading.KeyIsPosted | packages/controllers/ajax_send_tx.go:64-69 | the key comes from the form's hexadecimal text |
| SignedHeading.SentIsListed | packages/controllers/block_explorer.go:100-113 | the explorer lists every sent transaction under its contract's number |
| ContractParser.PayloadReadsBack | packages/parser/common_parse_transaction.go:81-140 | for every schema and form the payload is read back parameter by parameter, lists included, with what follows untouched, if and only if every amount is a numeral |
| ContractParser.HeaderReadsBack | packages/parser/common_parse_transaction.go:50-58 | every header is read back, whatever follows |
| SignedHeading.RebuiltBegins | packages/parser/common_parse_transaction.go:74-76 | the string the parser rebuilds begins with the header's number, time, wallet, state and flags in plain decimal |
| SignedHeading.SentBegins | packages/parser/common_parse_transaction.go:50-76 | for a sent transaction whose number and state fit an int32 these are the session's own, the posted time, and whether a key is missing |
| SignedHeading.EmptyPayloadIsRead | packages/parser/common_parse_transaction.go:81-140 | with nothing behind the header exactly the contracts are accepted whose parameters need no bytes |
| ContractParser.SignSplitsBack | packages/parser/smart_p.go:169-172 | the Sign field splits into signature and key tail exactly when the flag is set, if and only if a posted key has 65 bytes |
| Pieces.JoinsAgreePiecewise | packages/parser/common_parse_transaction.go:152 | commas inside pieces cannot make different pieces join to the same string, where each piece on one side equals its partner or has none |
| SignedString.ContractBranch | packages/parser/common_parse_transaction.go:48-55 | a sent transaction takes the contract branch if and only if the contract's number is at least 128 |
| SignedString.SentIsParsed | packages/parser/common_parse_transaction.go:50-155 | for every contract and form: what was queued is accepted if and only if the number is at least 128 and every amount is a numeral, and header and values are recovered |
| SignedString.EchoIsShown | packages/parser/common_parse_transaction.go:82-152 | parameter by parameter: the parser prints what was signed if and only if the posted and sent texts are faithful |
| SignedString.AddressIsFaithful | packages/controllers/ajax_send_tx.go:93-95 | address parameters are faithful, in unsigned ones if and only if not negative |
| SignedString.ZeroAmountIsNotFaithful | packages/controllers/ajax_prepare_tx.go:175-177 | the amount "0" passes all checks, is signed as nothing and rebuilt as "0" |
| SignedString.SignedStringIsRebuilt | packages/parser/common_parse_transaction.go:74-152 | for every contract: without the signature parameters, the rebuilt string is the prepared one if and only if number and state fit an int32 and every parameter but the images is faithful |
| SignedString.CompletedStringIsRebuilt | static/js/index.js:1608-1622 | where the signature parameters come last, the whole string is the one the page had signed under the same condition |
| SignedString.NodeChecksWhatWasSigned | packages/parser/common_parse_transaction.go:50-155 | both results from the posted form to the parser's answer |
| SignedString.WholeStringsAgreePiecewise | static/js/index.js:1608-1622 | for every contract and all texts: the whole strings agree if and only if number and state fit and the signed pieces join to the same text as those the parser prints |
| SignedString.OrderDecides | static/js/index.js:1608-1622 | wherever the signature parameters stand: with faithful texts the whole strings agree if and only if number and state fit and moving the signatures to the end does not change the join of the posted texts |
| SignedString.PlainOrderDecides | static/js/index.js:1608-1622 | among texts without commas, if and only if that move changes no text's place |
| SignedString.SignatureInFrontIsMisread | packages/controllers/ajax_prepare_tx.go:143 | a signature parameter in front of another one with a different faithful text makes the strings differ |
| SignedString.EncryptedListIsMadeUpFor | packages/controllers/ajax_prepare_tx.go:147-160 | an encrypted list can differ from the signed key while a later parameter makes up for it, so no condition on single parameters is exact |
| SignedString.ZeroAmountIsMisread | packages/controllers/ajax_prepare_tx.go:175-177 | an accepted transaction whose rebuilt string is not the signed one |
| RollbackLog.RunKeepsValid | packages/parser/common_selective_logging_and_upd.go:101-166 | in every run over any rows, record numbers have no gap and lead to strictly older records |
| WrittenCells.RunWrites | packages/parser/common_selective_logging_and_upd.go:101-166 | after any run each cell holds the value of the newest write that names it, or the earlier one, or the blank one of a row inserted in the run; rows appear exactly where a write names them |
| WrittenCells.WriteSavesNewest | packages/parser/common_selective_logging_and_upd.go:101-166 | the next write leaves in its record, for exactly the columns it names, the saved text of the newest earlier values, with its block and the row's earlier record; other rows and records stay |
| RollbackLog.UndoAllLeavesScars | packages/parser/common_selective_rollback.go:28-84 | undoing a whole run last to first restores rows, log and numbering, except that touched columns are left as they were saved |
| RollbackLog.UndoneExactlyWhenPlain | packages/parser/common_auto_rollback.go:29-52 | a run is undone if and only if every column it touches in earlier rows was neither NULL nor non-empty bytes |
| RollbackLog.OtherValuesAreLost | packages/parser/common_selective_rollback.go:51-58 | every value that is not plain is lost by one write and its undoing |
| RollbackLog.NullComesBackAsText | packages/parser/common_selective_rollback.go:51-58 | a row whose NULL comes back from one write and its undoing as the text "NULL" |
| RollbackLog.ByteComesBackAsDigits | packages/parser/common_selective_rollback.go:51-58 | a row whose byte comes back as the two digits that print it |
| RollbackLog.HistoryIsWhatWasOverwritten | packages/parser/common_selective_logging_and_upd.go:101-166 | after any run a row's chain is exactly what was overwritten in it, newest first, then its older chain |
| Histories.EditPageHistory | packages/controllers/edit_page.go:68-96 | the loop shows the walk of at most 29 records, or fails on a missing one |
| Histories.EditContractHistory | packages/controllers/edit_contract.go:80-121 | the walk of at most 9 records |
| Histories.RowHistory | packages/controllers/row_history.go:40-75 | a number below 1 is refused; otherwise the walk of at most 100 records |
| Histories.WalkIsChain | packages/controllers/row_history.go:62-75 | on a sound log a walk never fails and is the row's chain cut at its bound |
| Histories.ShorterWalkIsPrefix | packages/controllers/edit_page.go:68-96 | walks of one row are prefixes of each other |
| Histories.WalkShowsWhatWasOverwritten | packages/controllers/edit_page.go:81-91 | after any run a walk shows exactly the columns the newest updates of that row overwrote, newest first |
| Histories.WalkAfterWrite | packages/controllers/edit_page.go:68-96 | one more write puts one record with the newest earlier values in front of what the walk showed |
| Histories.OtherWalksStay | packages/controllers/edit_page.go:68-96 | and changes nothing in the walks of other rows |
| WalletHistory.ShowHistory | packages/controllers/wallet_history.go:47-76 | the loop terminates on records that lead to older ones and yields the trail of at most 101 entries, or the error page |
| WalletHistory.TrailFollowsChain | packages/controllers/wallet_history.go:54-74 | one entry for each of the first n records of the chain that hold an amount, others skipped |
| WalletHistory.HistoryAddsUp | packages/controllers/wallet_history.go:52-74 | at most 101 entries from the current balance on; undoing each difference gives the next balance; the differences sum to the current balance less the last amount visited |
| StallDetector.Detector.Synchronize | packages/controllers/synchronization_blockchain.go:80-139 | the three variables and the flag after one call; the first call never raises it |
| StallDetector.HiddenExactly | packages/controllers/synchronization_blockchain.go:90-110 | the block is reported as -1 if and only if it is less than twelve hours and the last one collected less than ten minutes old, or 7200 and 1200 years in test mode |
| StallDetector.RaisedExactlyWhenStuck | packages/controllers/synchronization_blockchain.go:121-137 | for every sequence of calls with a clock that does not go back: the flag is raised if and only if more than 300 s have passed, the block is over an hour old, and the node has been steady since a call more than 60 s ago |
| StallDetector.SteadyMeansUnchanged | packages/controllers/synchronization_blockchain.go:127-131 | with blocks that do not go back, steady means every call since saw the same block |
| StallDetector.CaughtUpNodeIsTold | packages/controllers/synchronization_blockchain.go:98-110 | for a node reporting -1 the age condition always holds |
| StallDetector.CaughtUpNodeIsToldOnce | packages/controllers/synchronization_blockchain.go:98-137 | two calls of a node whose last block is seconds old, the second raising the flag |
| Money.AccountAmount | packages/controllers/accounts.go:59-69 | the closure's text for any digit count, NULL and empty amounts included |
| Money.WalletAmount | packages/controllers/edit_wallet.go:79-86 | the wallet page's text |
| Money.PointStandsThere | packages/controllers/accounts.go:59-69 | the point stands before the last digits, behind zeros enough for one digit in front; without fractional digits the amount stays, a missing one is shown as nothing |
| Money.FormattersAgree | packages/controllers/edit_wallet.go:79-86 | the two formatters agree at 18 digits on all texts but "0", "" and "NULL" |
| Money.FixedPointIsExact | packages/controllers/accounts.go:63-67 | for every digit string and count: that many fractional digits, a non-empty whole part, and the same value scaled by a power of ten |
| Money.AmountIsRecovered | packages/controllers/accounts.go:63-67 | dropping the point and leading zeros gives the amount without its leading zeros |
| Money.SignStaysInFront | packages/controllers/accounts.go:63-67 | a minus sign stays in front of a non-empty whole part if and only if more digits follow than the digit count |
| Money.EGSMoney | packages/lib/lib.go:331-338 | the padded, pointed and trimmed text, which for a digit string is the shortest exact one |
| Money.TextIsExactAndShort | packages/lib/lib.go:331-338 | the text is worth the amount in units of 10 to the -18 and has no point or no trailing zero to spare |

## Left out

- HTTP handling, sessions, templates, menus, login and installation: plumbing.
- The database engine: tables are sequences and maps; failed statements appear only where the code has a branch for them.
- Torn reads inside one `UpdateChain` call and chain rollbacks that delete blocks: the code has no lock and the window no deletion.
- Daemon restarts, database errors and the single-host list of test mode in the confirmation daemon: the scan runs to its end.
- TCP details of a probe, cryptography, hashing and address checksums: parameters.
- ContractTx.CheckTx: error texts are not told apart, and the title and parameter captions of a stored signature are not modelled.
- ContractTx.Prepare: prepare, send and parser are taken to see the same contract declaration.
- SignedString.SignedStringIsRebuilt: an encrypted key must not be a list, for the reason in SignedString.EncryptedListIsMadeUpFor; the browser is taken to post the keys and signatures as index.js does.
- SystemParser.ParseTransaction: the hash in front of the slices is left out; whether a contract's transaction is accepted is ContractParser's.
- Frames.SaveQueue: the rows of node keys and anonymous accounts that ChangeNodeKeyDLT, ChangeNodeKey and NewAccount insert are left out.
- ContractTx.Send: the clock of the status row is left out.
- RollbackLog.UndoAllLeavesScars: NULL in a numeric column makes the database refuse the restoring statement; here it comes back as text like any other. Increments and timestamps appear as the cells they produce.
- WalletHistory.ShowHistory: amounts are exact decimals kept as real numbers; their formatting is in Money.
- Contract ordering in `export_tpl.go`: its comparison is no order, so it promises nothing to prove.
