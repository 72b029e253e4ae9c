# Verified model of the schedule module

Burnt Chain's `x/schedule` module lets the owner of a contract have the chain call that
contract at a later block. A pending call is kept in a byte-keyed store under two keys, is
executed by the module's EndBlocker at its height, pays its gas from the contract's balance,
and may schedule itself again. This project models that module and proves what it keeps.

| file | what it models |
|---|---|
| `Machine.dfy` | bytes, big-endian heights, lexicographic byte order, buffer splices |
| `Varint.dfy`, `Wire.dfy`, `Fields.dfy`, `Messages.dfy` | the generated protobuf code: varints, the parser with its skipping of unknown fields and groups, back-to-front marshalling, and four messages |
| `Format.dfy` | the wire format in literal bytes: what every decoder accepts, what each field does, how each other input fails |
| `Keys.dfy`, `Index.dfy` | the two key families, how the iterators take keys apart, and the one map the two families stand for |
| `Scheduler.dfy` | the state machine over that map: both message servers, the EndBlocker callback, a pass, runs |
| `History.dfy`, `Runs.dfy`, `Theorems.dfy` | what a history of events adds up to, the invariant of every run, the promises over every run, and exactly when a run on the map halts |
| `Cursor.dfy`, `Chain.dfy` | live prefix cursors, and the module step by step on the byte store, whatever the store holds |
| `Layout.dfy`, `Servers.dfy` | the store in literal bytes; what each message server answers and each operation leaves, by message, answers and bytes alone |
| `Causes.dfy` | every body executed and every re-scheduling traced back to the message and the answer it came from |
| `Panics.dfy` | exactly when a visit, an iteration, a block and a run on the bytes halt the chain, on every store |
| `Refinement.dfy` | the steps on bytes refine the state machine wherever the store stands for a map; the listing and the count |
| `Versions.dfy` | exactly when the code as written and the intended code do the same on the bytes |
| `Halting.dfy`, `Locking.dfy`, `Rescue.dfy` | what ReScheduleCall as written does to the chain, exactly; when a re-added pair is lost for good, and how it can otherwise be repaired |
| `Keeper.dfy` | the keeper as a class over the byte store, each method proved on every store |

Conventions.

- **Two versions of ReScheduleCall.** `keeper.go:94-95` stores the height under the by-height
  key and the body under the by-signer key, the reverse of `keeper.go:78-79`. The parameter
  `Code` selects the assignment: `AsWritten` or `Intended`. Lemmas in `Theorems.dfy` are about
  `Intended` unless they say `AsWritten`, or take `code` as a parameter and hold for both. The
  versions are compared by store, bank, height and halting after every step of a run. From any
  store they agree throughout exactly when every accepted message of the intended run that
  reads a stored height other than zero meets `Index.Coincidence`: a body of six bytes and the
  height 0x0a06 followed by them (`Versions.AgreeIff`). So below height 2^56 they agree
  throughout exactly when no accepted message finds its pair pending
  (`Versions.AgreeIffNoReplacement`); above, one may
  (`Rescue.CoincidenceExample`), and versions that parted may meet again
  (`Rescue.MeetAgainExample`). Over messages from plain
  pairs and heights below 2^56, an entry is undecodable exactly when ReScheduleCall made the
  last write under its key (`Halting.UndecodableIffMoved`), and a run halts the chain exactly
  when it ends a block at whose height such an entry stands, or in which some contract makes
  its callback panic (`Halting.StepsHaltIff`). So a re-added pair halts the chain at its new
  height unless a fresh entry is written under the same key first
  (`Halting.ReAddHaltsAsWritten`). Whether that can happen depends on the body left behind.
  With one to five bytes it never can: the pair stays unreadable in every run that follows and
  no run gets past the height (`Locking.ShortBodyLocksRun`). With six bytes or more a removal
  followed by a message repairs the entry (`Rescue.LongBodyRescued`). With none a second
  message would (`Rescue.EmptyBodyRescued`); that one is about the message server alone, since
  ValidateBasic refuses an empty call body before it gets there
  (x/schedule/types/message_add_schedule.go:49).
- **Two levels.** `Chain.dfy` describes every step on the bytes, on every store: misread keys,
  unreadable heights and undecodable values included. `Scheduler.dfy` describes the steps on
  the map of pending calls. Its outcome `Garbled` marks a step that need not lead to a map
  again: an accepted message whose signer is not 20 bytes or whose contract is over 32, a
  message for a pair whose entry was moved by ReScheduleCall as written, or a due signer that
  begins with its own nine-byte height prefix. There the steps on bytes still say what happens;
  everywhere else they refine the map (`Refinement.StepsRefine`); on the bytes no step leaves
  the model, so a run that does not halt completes (`Panics.StepsPanicIff`). The exact conditions on keys
  are `Keys.DueKeyExact`, `Keys.ListedKeyExact` and `Index.VisitDeletesItselfIff`;
  `Theorems.RunNeverGarbled` gives a condition on the messages alone that rules `Garbled` out.
- **Literals.** `Format.dfy`, `Layout.dfy` and `Servers.dfy` state bytes, tags, prefixes and
  conditions as written-out numbers and guards, not through the functions that compute them.
- **Panics.** An uncaught Go panic in EndBlocker halts the chain (`Panic`). A panic while a
  message is delivered fails that message only and changes nothing (`Crash`).
- **The environment.** Contract queries and executions, bech32 parsing and bank transfers answer
  arbitrarily: an `EndBlock` event carries one reply for each key, which loses nothing since a
  key is visited at most once. A contract run may leave any bank behind but does not write the schedule
  store. Other modules may change the bank between steps (`External`).
- **Integers.** Heights and amounts of gas are 64-bit and sums of them wrap as in Go; indices
  into buffers are 64-bit ints and their additions wrap. In the varint loops the bitwise or of
  groups at disjoint bit positions is written as addition. Block heights come from an int64, so
  runs are bounded by 2^63 blocks.
- **Iterators.** The store is an ordered byte map. A cursor is live: advancing it looks up the
  next key in the store as it is then, after the deletions and insertions of the loop body.
- **Shared copies.** The three generated files repeat the same varint, skip and field code; it is
  modelled once. The loop that skips a varint's bytes reads the varint and drops its value.

## Model

| member | source | states |
|---|---|---|
| `Machine.HeightRoundTrip` | x/schedule/keeper/keeper.go:62-67 | a height stored big-endian is read back, for every 64-bit height |
| `Machine.HeightOrder` | x/schedule/types/keys.go:38-40 | the byte order of stored heights is exactly their numeric order |
| `Varint.SovIsLength` | x/schedule/types/schedule.pb.go:146-148 | the size computed from the bit length is the number of bytes of the varint, for every 64-bit value |
| `Varint.VarintRoundTrip` | x/schedule/types/tx.pb.go:719-733 | every 64-bit value is read back whatever follows, consuming exactly the one to ten bytes written |
| `Varint.PutVarint` | x/schedule/types/schedule.pb.go:122-132 | the encode loop leaves exactly the varint ending at the offset, and no other byte changed |
| `Varint.GetVarint` | x/schedule/types/schedule.pb.go:158-171 | the decode loop returns the groups' value modulo 2^64, with overflow after ten groups and end of input as errors, never indexing past the buffer |
| `Format.VarintLayout` | x/schedule/types/schedule.pb.go:122-132 | each byte of a varint holds the next seven bits of the value, and all but the last have the high bit set |
| `Format.ReadVarintExact` | x/schedule/types/schedule.pb.go:158-171 | the decode loop on every input: at most ten bytes give their seven-bit groups modulo 2^64, ten high bytes overflow, fewer up to the end are cut off |
| `Wire.Skip` | x/schedule/types/schedule.pb.go:236-313 | the skip loop with its depth counter and wrapping index equals the recursive skip of one field on every byte string; a successful skip has positive length |
| `Format.ReadItemExact` | x/schedule/types/schedule.pb.go:257-304 | one skipped element by the lowest three bits of its tag: 0 a varint, 1 eight bytes, 2 a length and its payload, 3 opens and 4 closes a group, 5 four bytes, 6 and 7 an error |
| `Format.SkipExact` | x/schedule/types/schedule.pb.go:236-313 | how a skip ends: after one element, at an unexpected end of group, cut off inside a group, or with the element's own error |
| `Wire.SkipLocal` | x/schedule/types/schedule.pb.go:236-313 | a successful skip does not depend on the bytes that follow |
| `Wire.GetTag` | x/schedule/types/schedule.pb.go:156-179 | the tag check on every input, field number truncated to 32 bits |
| `Format.FieldNumberExact` | x/schedule/types/schedule.pb.go:172 | the field number is the low 32 bits above the wire type, signed |
| `Format.ReadTagExact` | x/schedule/types/schedule.pb.go:172-179 | a tag of wire type 4 and one with a number that is not positive are refused, each with its own error; every other is read |
| `Wire.GetPayload` | x/schedule/types/schedule.pb.go:185-214 | a length-delimited payload, with negative, overflowing and overrunning lengths told apart |
| `Format.ReadPayloadExact` | x/schedule/types/schedule.pb.go:201-214 | a length of 2^63 or more, or an end at or past 2^63, is invalid, an end past the buffer is cut off, and any other is the slice |
| `Wire.GetUnknown` | x/schedule/types/schedule.pb.go:215-228 | skipping from the saved index, including the wrap of index plus length |
| `Wire.ScanConcat` | x/schedule/types/schedule.pb.go:152-235 | parsing a concatenation is parsing the first part and going on with the second |
| `Wire.ScanAnywhere` | x/schedule/types/schedule.pb.go:203-210 | where in a buffer the bytes lie changes neither the fields read nor whether parsing succeeds |
| `Wire.UnknownFieldIgnored` | x/schedule/types/schedule.pb.go:215-228 | inserting one undeclared field at any field boundary leaves the fields read unchanged |
| `Wire.ElementIsUnknownField` | x/schedule/types/schedule.pb.go:236-313 | every well-formed field, groups nested to any depth included, is skipped as exactly itself |
| `Wire.SkipGroup` | x/schedule/types/schedule.pb.go:293-299 | a group is skipped up to its matching end at every depth |
| `Fields.ScanEncoded` | x/schedule/types/schedule.pb.go:152-235 | parsing the encoding of any list of declared fields gives the list back |
| `Fields.DecodeConcat` | x/schedule/types/schedule.pb.go:152-235 | decoding two concatenated encodings is decoding the second into the result of the first |
| `Fields.DecodeIgnoresUnknown` | x/schedule/types/schedule.pb.go:215-228 | a message decodes the same with any undeclared field inserted at a field boundary |
| `Format.ScanFailsIff` | x/schedule/types/schedule.pb.go:152-235 | parsing fails with an error if and only if, after some prefix that parses cleanly, the next field fails with it |
| `Format.DecodeFailsIff` | x/schedule/types/tx.pb.go:588-754 | so an Unmarshal fails if and only if some field after a clean prefix fails, with that field's error |
| `Format.WrongTypesFail` | x/schedule/types/tx.pb.go:616-734 | after any clean prefix, a declared field of another wire type than 2, or than 0 for the height, makes Unmarshal fail |
| `Format.WrongTypeFailsInResponse` | x/schedule/types/query.pb.go:1056-1060 | the same for a response |
| `Format.UndeclaredSkipped` | x/schedule/types/schedule.pb.go:215-228 | a field of an undeclared number is skipped whole or fails as the skip does |
| `Format.DeclaredFields` | x/schedule/types/tx.pb.go:616-734 | the declared field numbers: 1 for a call and a response, 1, 2, 3 and 5 for a message, 1 to 4 for a listing |
| `Fields.PutBytes` | x/schedule/types/tx.pb.go:405-411 | payload, length and tag written backwards end up as the field's encoding, with no gap, overrun or other byte changed |
| `Fields.PutUint64` | x/schedule/types/tx.pb.go:400-404 | the same for a 64-bit field, which is omitted when zero |
| `Messages.CallRoundTrip` | x/schedule/types/schedule.pb.go:107-144 | Size is the length written, and Unmarshal inverts Marshal for every ScheduledCall |
| `Messages.CallLastOneWins` | x/schedule/types/schedule.pb.go:152-235 | of two concatenated calls the last body wins, unless it is empty |
| `Messages.CallLayout` | x/schedule/types/schedule.pb.go:107-120 | a call is its body behind 0x0a and its length, or nothing |
| `Format.CallFieldSets` | x/schedule/types/schedule.pb.go:181-214 | after any decoded bytes a field 1 sets the body, an empty one included |
| `Messages.MarshalCallToSizedBuffer` | x/schedule/types/schedule.pb.go:107-120 | exactly Size bytes before the end hold the encoding, the rest of the buffer is untouched |
| `Messages.MarshalCall` | x/schedule/types/schedule.pb.go:92-100 | the buffer of Size bytes is exactly the encoding |
| `Messages.UnmarshalCall` | x/schedule/types/schedule.pb.go:152-235 | the loop, into any existing message and on any bytes, is the fold of the fields read, or the first error |
| `Messages.DecodeCallBound` | x/schedule/types/schedule.pb.go:203-213 | marshalling a decoded call again takes no more bytes than it was decoded from |
| `Messages.AddRoundTrip` | x/schedule/types/tx.pb.go:523-545 | Size is the length written, and Unmarshal inverts Marshal for every MsgAddSchedule |
| `Messages.AddLayout` | x/schedule/types/tx.pb.go:395-427 | the set fields lie in order behind the tags 0x0a, 0x12, 0x1a and 0x28 |
| `Format.AddFieldSets` | x/schedule/types/tx.pb.go:616-734 | after any decoded bytes each field sets its own part of the message and no other, so the last one wins, zero and empty ones included |
| `Messages.MarshalAddToSizedBuffer` | x/schedule/types/tx.pb.go:395-427 | the four fields written from the last to the first lie in ascending order in exactly Size bytes |
| `Messages.UnmarshalAdd` | x/schedule/types/tx.pb.go:588-754 | the loop is the fold of the fields read, or the first error |
| `Messages.QueryRoundTrip` | x/schedule/types/query.pb.go:630-652 | Size is the length written, and Unmarshal inverts Marshal for every QueryScheduledCall |
| `Messages.QueryLayout` | x/schedule/types/query.pb.go:519-551 | the set fields lie in order behind the tags 0x0a, 0x12, 0x18 and 0x22 |
| `Format.QueryFieldSets` | x/schedule/types/query.pb.go:886-1006 | after any decoded bytes each field sets its own part of the message and no other |
| `Messages.MarshalQueryToSizedBuffer` | x/schedule/types/query.pb.go:519-551 | the fields written backwards are the encoding, in exactly Size bytes |
| `Messages.UnmarshalQuery` | x/schedule/types/query.pb.go:858-1026 | the loop is the fold of the fields read, or the first error |
| `Messages.ResponseRoundTrip` | x/schedule/types/query.pb.go:553-588 | a response of any length decodes to the same calls in the same order |
| `Messages.ResponseLayout` | x/schedule/types/query.pb.go:568-588 | each call lies behind 0x0a and its length, an empty one included |
| `Format.ResponseFieldAppends` | x/schedule/types/query.pb.go:1057-1090 | after any decoded bytes a field 1 appends the call in its payload, or fails as that call does |
| `Format.ResponsesConcat` | x/schedule/types/query.pb.go:1027-1110 | two concatenated responses decode to the calls of both |
| `Messages.SizeOfResponse` | x/schedule/types/query.pb.go:654-667 | the loop adds up the framed sizes of all calls |
| `Messages.MarshalResponseToSizedBuffer` | x/schedule/types/query.pb.go:568-588 | nested messages written from the last to the first, with lengths computed on the way, are the encoding in exactly Size bytes |
| `Messages.UnmarshalResponse` | x/schedule/types/query.pb.go:1027-1110 | each nested payload is decoded and appended; the first nested or outer error is returned |
| `Keys.SignerKeyInjective` | x/schedule/types/keys.go:46-48 | different pairs with signers of one length have different by-signer keys |
| `Keys.HeightKeyInjective` | x/schedule/types/keys.go:42-44 | different heights or pairs have different by-height keys |
| `Keys.FamiliesDisjoint` | x/schedule/types/keys.go:25-32 | no by-height key is a by-signer key |
| `Keys.HeightKeyOrder` | x/schedule/types/keys.go:38-44 | by-height keys are ordered exactly by height, then signer, then contract |
| `Layout.OrderOfKeys` | x/schedule/types/keys.go:38-48 | one key is before another if and only if at their first difference it ends or has the smaller byte |
| `Keys.DueKeyExact` | x/schedule/keeper/keeper.go:141-143 | the per-height scan recovers signer and contract if and only if the second trim finds nothing and the address lengths fit the two reads |
| `Keys.TrimSafeForStandard` | x/schedule/keeper/keeper.go:141-143 | for 20-byte signers that is exactly: the signer does not begin with the nine-byte height prefix |
| `Keys.ListedKeyExact` | x/schedule/keeper/keeper.go:123-126 | the full scan recovers height, signer and contract if and only if the height's top byte is not 01 and the lengths fit |
| `Keys.PlainIsTrimSafe` | x/schedule/keeper/keeper.go:141 | below height 2^56 a signer not beginning with 01 00 is always recovered |
| `Layout.HeightLayout` | x/schedule/types/keys.go:38-40 | a height is its eight bytes, most significant first |
| `Layout.HeightReading` | x/schedule/keeper/keeper.go:62-67 | no bytes read as zero, one to seven panic, and of eight or more the first eight are read, most significant first |
| `Layout.KeyLayout` | x/schedule/types/keys.go:25-48 | the by-height key is 01, height, signer, contract and the by-signer key 02, signer, contract |
| `Layout.VisitReads` | x/schedule/keeper/keeper.go:141-143 | a visit cuts a second height prefix if there is one, then reads 20 bytes of signer and at most 32 of contract |
| `Layout.ListingReads` | x/schedule/keeper/keeper.go:123-126 | the full scan cuts a second 01 if there is one, then reads 8 bytes of height, 20 of signer and at most 32 of contract |
| `Layout.RepresentsLayout` | x/schedule/keeper/keeper.go:69-80 | a store stands for well-placed calls if and only if it holds, byte by byte, the height under 02 and the call under 01 for each, and no other key |
| `Layout.BodyLayout` | x/schedule/keeper/keeper.go:74-79 | a stored call is its body behind 0x0a and its length, or no bytes for an empty one |
| `Layout.BodyReading` | x/schedule/keeper/keeper.go:145-146 | an iterator panics on a stored value if and only if it does not decode as a call, and otherwise reads its body |
| `Index.RepresentsLookup` | x/schedule/keeper/keeper.go:62-80 | a pair has a by-signer key exactly when it is pending, and a by-height key exactly at its height |
| `Index.RepresentsInsert` | x/schedule/keeper/keeper.go:69-80 | adding both entries refines inserting into the map |
| `Index.RepresentsRemove` | x/schedule/keeper/keeper.go:109-116 | deleting both keys refines removing from the map |
| `Index.RepresentsRemoveAbsent` | x/schedule/keeper/keeper.go:98-107 | removing an unscheduled pair changes nothing |
| `Index.RepresentsUnique` | x/schedule/keeper/keeper.go:69-80 | a store stands for at most one map of well-placed calls |
| `Index.RepresentationDeterminesStore` | x/schedule/keeper/keeper.go:69-116 | and a map has exactly one store |
| `Index.VisitDeletesItselfIff` | x/schedule/keeper/keeper.go:141-147 | visiting a due key deletes its own two entries if and only if the second trim finds nothing and the key fits the two reads |
| `Index.StrandedSigner` | x/schedule/keeper/keeper.go:141-147 | for every height there is a standard signer whose entry outlives the visit at that height |
| `Index.RescheduleRepresents` | x/schedule/keeper/keeper.go:82-96 | the intended assignment replaces the pending call, leaving one entry; the written one leaves a swapped entry |
| `Index.AsWrittenKeepsIndexIff` | x/schedule/keeper/keeper.go:94-95 | as written the store still stands for a map of well-placed calls if and only if the body has six bytes and the height is 0x0a06 followed by them; never below height 2^56 |
| `Index.SwappedRejected` | x/schedule/types/schedule.pb.go:172-179 | a height below 2^56 stored where the call should be is rejected as an illegal tag |
| `Index.SwappedHeightUnreadable` | x/schedule/keeper/keeper.go:98-106 | a body stored where the height should be reads back as zero when empty, is a panic for one to five bytes, and otherwise a number above every height below 2^56 |
| `Index.DecodedBodyOfGood` | x/schedule/keeper/keeper.go:145-146 | a well-placed entry reads back its own body |
| `Scheduler.InWindowExact` | x/schedule/keeper/msg_server_add_schedule.go:17-23 | the window check accepts exactly H < h <= H + UpperBound over the true integers when the sum fits 64 bits, and nothing when it wraps |
| `Servers.VisitEffect` | x/schedule/keeper/keeper.go:140-151 | on every store a visit deletes the two keys of the pair it read, charges a call that ran, and writes that call back with the body just read exactly when it succeeded within its gas, kept the minimum balance and named a height in the window |
| `Scheduler.ConsumeOneDue` | x/schedule/keeper/keeper.go:140-151 | one visit takes exactly one pair off those due at this height |
| `Runs.AcceptedIff` | x/schedule/keeper/msg_server_add_schedule.go:17-63 | a message is accepted if and only if its height is in the true window, the addresses parse, the signer owns the contract and the contract has the minimum balance |
| `Servers.AddAnswered` | x/schedule/keeper/msg_server_add_schedule.go:17-69 | each answer of AddSchedule with its exact condition: five rejections in their order, the crash on an unreadable height, and acceptance |
| `Servers.AddEffect` | x/schedule/keeper/msg_server_add_schedule.go:65-69 | a message not accepted changes nothing; an accepted one writes exactly its own height and body under the pair's two literal keys, after deleting those at the height read if there was one, with the values exchanged as written |
| `Servers.AddStores` | x/schedule/keeper/msg_server_add_schedule.go:65-69 | over a represented map an accepted message leaves the pair pending with exactly the message's height and body, well placed unless the code as written moved it |
| `Servers.AddRecorded` | x/schedule/keeper/msg_server_add_schedule.go:14-81 | the history gains exactly the message's height and body, and nothing when it is not accepted |
| `Servers.RemoveAnswered` | x/schedule/keeper/msg_server_remove_schedule.go:13-40 | a removal is accepted if and only if both addresses parse, the signer owns the contract and the stored height is readable; each other answer with its exact condition |
| `Servers.RemoveEffect` | x/schedule/keeper/msg_server_remove_schedule.go:44 | a removal not accepted changes nothing; an accepted one deletes the pair's two literal keys at the height read |
| `Servers.RemoveTakesOut` | x/schedule/keeper/keeper.go:98-107 | over a represented map an accepted removal takes out exactly its own pair |
| `Servers.RemoveRecorded` | x/schedule/keeper/msg_server_remove_schedule.go:10-54 | on the map nothing is removed but for an owner, and the history says what was |
| `Servers.ExternalEffect` | x/schedule/keeper/abci.go:72 | other modules may replace the bank between steps, and change nothing of this module |
| `Runs.CallbackPanicsIff` | x/schedule/keeper/abci.go:78-87 | a callback panics if and only if the call runs and the balance reaches 2^64, the VM panics, or it returns one to seven bytes within its gas |
| `Runs.ConsumeOnePanicsIff` | x/schedule/keeper/keeper.go:145-150 | a visit panics if and only if the stored value does not decode or the callback panics |
| `Runs.ChargedExactly` | x/schedule/keeper/abci.go:78-102 | the whole effect of a callback on the bank: a call that ran pays the gas it asked for, capped by its balance before, even when it failed |
| `Runs.RequeuedIff` | x/schedule/keeper/abci.go:78-153 | a call is scheduled again if and only if it ran, succeeded within its gas, kept the minimum balance and returned a height in the true window; then at that height with its own body |
| `Runs.CallbackLogged` | x/schedule/keeper/abci.go:78-153 | what a callback appends to the history, from the answers alone: a call that ran is recorded as failed if and only if it reported an error or asked for more gas than the balance, its fee if and only if it was paid, its re-scheduling if and only if it was scheduled again |
| `Runs.CollectMoves` | x/schedule/keeper/abci.go:90-102 | a fee leaves the payer, reaches the collector and touches no other account |
| `Causes.PendingIsMessages` | x/schedule/keeper/abci.go:149-153 | through any number of re-schedulings a pending call carries the body of the latest message of the run that was accepted for its pair |
| `History.CallsConserved` | x/schedule/keeper/keeper.go:69-152 | fresh adds plus re-inserts are consumed plus removed plus pending |
| `History.FeesConserved` | x/schedule/keeper/abci.go:90-102 | the collector gains exactly the fees, and each account loses exactly its own, on top of what contracts and other modules move |
| `History.FeesAddUp` | x/schedule/keeper/abci.go:90-102 | the fees taken from all accounts add up to the fees collected |
| `Runs.GasWithinLimit` | x/schedule/keeper/abci.go:12-42 | the gas charged never exceeds the limit; running out of gas charges the whole limit, fails and schedules nothing; an execution panics exactly when the VM does or a result of one to seven bytes comes back within the gas |
| `Runs.PassKeeps` | x/schedule/keeper/abci.go:44-168 | a pass keeps the invariant and leaves every pending call strictly above its height |
| `Runs.PassVisits` | x/schedule/keeper/keeper.go:135-152 | a pass visits exactly the calls due at its start, once each, in key order, and leaves none due |
| `Runs.RunKeeps` | x/schedule/keeper/abci.go:44-168 | every run keeps the invariant |
| `Theorems.NothingStranded` | x/schedule/keeper/abci.go:138-152 | in every reached state every pending height is between the current height and the upper bound above it |
| `Theorems.AfterEndBlock` | x/schedule/keeper/abci.go:44-168 | right after the EndBlocker of H every pending call lies in (H, H + UpperBound] |
| `Theorems.RunConservesCalls` | x/schedule/keeper/keeper.go:69-152 | in every reached state calls are conserved, counted over the whole history |
| `Theorems.RunConservesFees` | x/schedule/keeper/abci.go:90-102 | in every reached state the collector holds exactly what the contracts were charged, on top of outside moves |
| `Theorems.FeesAreBounded` | x/schedule/keeper/abci.go:78-102 | every fee is at most the contract's balance read before the execution it is for |
| `Causes.RequeuedByBlock` | x/schedule/keeper/abci.go:104-153 | every re-scheduling comes from the end of one block whose answer for that call reported no error, stayed within its gas and named that height; its body is that of the latest message accepted before |
| `Causes.ExecutedByBlock` | x/schedule/keeper/abci.go:87-153 | every execution comes from the end of one block, for an owner, with the body of the latest message accepted before that block, and is recorded as failed if and only if that block's answer reported an error or asked for more gas than the balance |
| `Theorems.ConsumedOnce` | x/schedule/keeper/keeper.go:135-152 | over every run no pair is consumed twice at one height |
| `Theorems.PassConsumes` | x/schedule/keeper/keeper.go:135-152 | a pass consumes every due call as it stood when the pass began |
| `Theorems.PassKeepsOthers` | x/schedule/keeper/keeper.go:135-152 | a pass leaves calls of other heights alone |
| `Theorems.ConsumedAtItsHeight` | x/schedule/keeper/abci.go:44-168 | a pending call that no later message addresses stays until its own height and is consumed there, in every run past it, under either assignment |
| `Theorems.PassPanicsIff` | x/schedule/keeper/abci.go:44-168 | a pass panics if and only if, after some number of visits, the next visit panics in the world reached by then |
| `Theorems.RunCompletesIff` | x/schedule/keeper/abci.go:44-168 | from an empty store, over plain pairs below height 2^56, a run completes if and only if no block in it panics |
| `Theorems.OneByteExample` | x/schedule/keeper/abci.go:38 | a three-step run of the intended code, under parameters the module accepts and a contract with the minimum balance, that halts on a one-byte answer |
| `Theorems.RunNeverHalts` | x/schedule/keeper/abci.go:12-168 | no run with benign answers halts the chain |
| `Theorems.RunNeverGarbled` | x/schedule/keeper/keeper.go:135-152 | below height 2^56, messages from standard pairs whose signer does not begin with 01 00 keep every key decodable |
| `Theorems.AsWrittenAgrees` | x/schedule/keeper/msg_server_add_schedule.go:65-69 | a run of the intended code in which no accepted message finds its pair pending is, history included, the run of the code as written |
| `Theorems.UndecodablePanics` | x/schedule/keeper/keeper.go:145-146 | a due entry whose value does not decode makes the pass panic whatever the contracts answer |
| `Theorems.SwappedBlockPanics` | x/schedule/keeper/keeper.go:94-95 | the EndBlocker at that height panics |
| `Theorems.ReAddExample` | x/schedule/keeper/keeper.go:94-95 | a five-step run that halts the code as written: add for height 2, move to height 3, three blocks |
| `Cursor.SoughtUnique` | x/schedule/keeper/keeper.go:119-122 | the key a cursor moves to is determined by the store |
| `Cursor.KeyListExact` | x/schedule/keeper/keeper.go:119-122 | a cursor over an unchanging store meets exactly the keys under the prefix, each once, in order |
| `Cursor.CursorOnDue` | x/schedule/keeper/keeper.go:136-140 | over a represented map the per-height cursor moves to the first due pair ahead of it |
| `Chain.VisitAddsNothingUnder` | x/schedule/keeper/keeper.go:140-151 | on every store a visit inserts nothing under the prefix being iterated |
| `Chain.IterateInOrder` | x/schedule/keeper/keeper.go:135-152 | on every store, misread keys included, the live iteration terminates and visits keys that were there at the start, each at most once, in key order |
| `Chain.IterateLeaves` | x/schedule/keeper/keeper.go:135-152 | on every store a key of the block is still there after the iteration if and only if no key visited was read as its pair, and then it was visited itself |
| `Chain.SurvivesIff` | x/schedule/keeper/keeper.go:141-147 | a due pair outlives its block if and only if its signer begins with the height prefix and no key visited was that prefix in front of its own addresses |
| `Panics.VisitPanicsIff` | x/schedule/keeper/keeper.go:145-150 | on every store a visit panics if and only if the value does not decode or the contract of the pair read from the key makes the callback panic |
| `Panics.IteratePanicsIff` | x/schedule/keeper/keeper.go:135-152 | on every store the live iteration panics if and only if after some number of visits the next value does not decode, or the contract read from the next key makes the callback panic from the bank reached by then |
| `Panics.StepsPanicIff` | x/schedule/keeper/abci.go:44-168 | from every store and under either version, a run halts the chain if and only if it reaches the end of a block in which some visit panics; any other run completes |
| `Chain.StepsHeightExact` | x/schedule/keeper/abci.go:44-168 | the height moves by one at the end of each block and never otherwise |
| `Causes.RunHeightExact` | x/schedule/keeper/abci.go:44-168 | the same for a run on the map |
| `Versions.RescheduleSameIff` | x/schedule/keeper/keeper.go:94-95 | on every store the two assignments leave the same bytes if and only if body and height coincide |
| `Versions.AgreeIff` | x/schedule/keeper/msg_server_add_schedule.go:65-69 | from every store, both versions have the same store, bank and height after every prefix of a run if and only if each accepted message of the intended run that reads a stored height other than zero has the coinciding body and height |
| `Versions.AgreeIffNoReplacement` | x/schedule/keeper/msg_server_add_schedule.go:65-69 | from an empty store and below height 2^56 they agree throughout if and only if no accepted message of the intended run finds its pair pending |
| `Refinement.VisitRefines` | x/schedule/keeper/keeper.go:140-151 | one loop body on the bytes is one visit of the state machine, panics included |
| `Refinement.IterateRefines` | x/schedule/keeper/keeper.go:135-152 | iterating with a live cursor while deleting and inserting is a pass over the calls due at the start |
| `Refinement.ZeroIffNotPending` | x/schedule/keeper/keeper.go:62-67 | the height read back is zero exactly when the pair has no pending call |
| `Refinement.AddRefines` | x/schedule/keeper/msg_server_add_schedule.go:65-69 | AddSchedule on the bytes inserts or replaces on the map |
| `Refinement.RemoveRefines` | x/schedule/keeper/keeper.go:98-107 | RemoveSchedule on the bytes removes from the map, and changes no byte for an unscheduled pair |
| `Refinement.StepsRefine` | x/schedule/keeper/keeper.go:69-152 | after any run of events that is not garbled the store stands for the pending calls of the state machine's run, over the same bank, and panics where it panics |
| `Refinement.GenesisRefines` | x/schedule/keeper/keeper.go:69-152 | in particular from the empty store: every run that is not garbled leaves a store that stands for the run's pending calls |
| `Refinement.FullKeyReads` | x/schedule/keeper/keeper.go:123-126 | what the full scan reads from the key of any standard pair at any height, a height of top byte 01 included, where everything is read one byte too far on |
| `Refinement.ListingExact` | x/schedule/keeper/grpc_query_scheduled_calls.go:12-31 | over every represented map the listing succeeds if and only if every stored value decodes, and then goes through every pending call exactly once, by height, signer and contract, showing each as the scan reads its key |
| `Refinement.ListingFaithful` | x/schedule/keeper/grpc_query_scheduled_calls.go:12-31 | with no height of top byte 01 each call listed is the pending call itself |
| `Refinement.CountExact` | x/schedule/keeper/keeper.go:154-164 | counting the keys under a height counts the calls due |
| `Halting.UndecodableIffMoved` | x/schedule/keeper/keeper.go:94-95 | in every reached state an entry is undecodable if and only if ReScheduleCall as written made the last write under its key |
| `Halting.MovedHalts` | x/schedule/keeper/keeper.go:145-146 | such an entry makes the block at its height panic whatever the contracts answer |
| `Halting.ReachedBlockHaltsIff` | x/schedule/keeper/keeper.go:94-95 | in every reached state, whatever the contracts answer, the block halts if and only if such an entry stands at its height or some contract reached makes its callback panic; with benign answers none does |
| `Halting.StepsHaltIff` | x/schedule/keeper/abci.go:44-168 | over plain pairs and heights below 2^56 a run of either version halts the chain if and only if it ends a block at whose height ReScheduleCall as written made the last write for some pair, or in which some contract makes its callback panic; any other run completes |
| `Halting.IntendedHaltsIff` | x/schedule/keeper/abci.go:44-168 | under the intended assignment only a contract can halt the chain |
| `Halting.IntendedRefines` | x/schedule/keeper/keeper.go:69-152 | such a run of the intended code completes on the bytes if and only if it does on the map, and its store then stands for the pending calls |
| `Halting.IntendedCompletes` | x/schedule/keeper/abci.go:12-168 | with benign answers every such run completes on the bytes |
| `Halting.ReAddHaltsAsWritten` | x/schedule/keeper/keeper.go:82-96 | as written, re-adding a pair puts an undecodable entry at the new height, and a run gets past it only if a fresh entry is written under the same key meanwhile |
| `Halting.AddPlaces` | x/schedule/keeper/msg_server_add_schedule.go:65-69 | an accepted message makes a moved write exactly when the height it reads back is not zero |
| `Halting.VisitPlacesIff` | x/schedule/keeper/abci.go:78-153 | a visit writes a fresh entry at a height if and only if the call ran, succeeded within its gas, kept the minimum balance and named that height in the window |
| `Locking.ShortBodyLocksRun` | x/schedule/keeper/keeper.go:62-96 | after re-adding a pair with a body of one to five bytes, in every run that follows, under either version and whatever the contracts answer, the pair stays locked and no block past its new height is reached |
| `Locking.LockedCrashes` | x/schedule/keeper/keeper.go:62-67 | while a pair is locked every message for it is rejected or crashes, and changes nothing |
| `Locking.LockExample` | x/schedule/keeper/keeper.go:82-96 | two messages from an empty store, after which no run gets past height 3 |
| `Rescue.EmptyBodyRescued` | x/schedule/keeper/keeper.go:69-80 | at the message server, after re-adding with an empty body one more message for the same height repairs the entry |
| `Rescue.LongBodyRescued` | x/schedule/keeper/keeper.go:98-107 | after re-adding with six bytes or more, a removal deletes only the by-signer entry and a message for the same height then repairs the other |
| `Rescue.RescueExample` | x/schedule/keeper/keeper.go:82-107 | a seven-step run in which the code as written gets past the height it re-added a pair to |
| `Rescue.MeetAgainExample` | x/schedule/keeper/keeper.go:82-107 | a run in which the versions part and end in the same store, bank and height |
| `Rescue.CoincidenceExample` | x/schedule/keeper/keeper.go:94-95 | a run in which an accepted message finds its pair pending and the versions agree throughout |
| `ScheduleKeeper.Keeper.BlockHeightForSignerContract` | x/schedule/keeper/keeper.go:62-67 | over any represented map of well-placed calls, zero exactly when the pair has no pending call, else its height; on every store the bytes' own reading |
| `ScheduleKeeper.Keeper.AddScheduledCall` | x/schedule/keeper/keeper.go:69-80 | the height under 02, signer, contract and the call under 01, height, signer, contract are written, and no other key changes |
| `ScheduleKeeper.Keeper.ReScheduleCall` | x/schedule/keeper/keeper.go:82-96 | the old entries go and two are written, assigned as `code` says |
| `ScheduleKeeper.Keeper.RemoveScheduledCall` | x/schedule/keeper/keeper.go:98-107 | the by-signer key and the by-height key at the stored height are deleted |
| `ScheduleKeeper.Keeper.RemoveScheduledCallWithBlockHeight` | x/schedule/keeper/keeper.go:109-116 | both keys at the given height are deleted |
| `ScheduleKeeper.Keeper.Seek` | x/schedule/keeper/keeper.go:119-122 | the cursor moves to the first key ahead in the store as it is |
| `ScheduleKeeper.Keeper.ScheduledCalls` | x/schedule/keeper/grpc_query_scheduled_calls.go:12-31 | on every store the listing of the by-height family in key order, or a panic; over a represented map, every pending call exactly once, as `Refinement.ListingExact` says |
| `ScheduleKeeper.Keeper.CountOfScheduledCallsAtHeight` | x/schedule/keeper/keeper.go:154-164 | the number of keys under the height; over a represented map, of the calls due |
| `ScheduleKeeper.Keeper.ExecuteMsgWithGasLimit` | x/schedule/keeper/abci.go:12-42 | what is charged is the gas asked for or the exceeded limit, never more than the limit; a success was charged its own gas; a named block comes from eight result bytes within the gas; it panics if and only if the VM does or a result of one to seven bytes comes back within the gas |
| `ScheduleKeeper.Keeper.ConsumeCallback` | x/schedule/keeper/abci.go:46-167 | the callback's whole effect on store and bank, panics included |
| `ScheduleKeeper.Keeper.ConsumeScheduledCallsByHeight` | x/schedule/keeper/keeper.go:135-152 | on every store the loop with its live cursor is the iteration that `Refinement.IterateRefines` and `Chain.IterateInOrder` are about |
| `ScheduleKeeper.Keeper.EndBlocker` | x/schedule/keeper/abci.go:44-168 | the same for EndBlocker: it halts exactly when the iteration panics |
| `ScheduleKeeper.Keeper.AddSchedule` | x/schedule/keeper/msg_server_add_schedule.go:14-81 | accepted if and only if the window, addresses, owner, balance and stored height allow it; otherwise nothing changes; a fresh message's own height and body are stored under the two literal keys; the whole answer and store in every case |
| `ScheduleKeeper.Keeper.RemoveSchedule` | x/schedule/keeper/msg_server_remove_schedule.go:10-54 | accepted if and only if the addresses parse, the signer owns the contract and the stored height is readable; otherwise nothing changes; the two literal keys are deleted; the whole answer and store in every case |
| `ScheduleKeeper.Keeper.Play` | x/schedule/keeper/keeper.go:69-152 | any run of events on the store, from any store, is the run of steps that `Refinement.StepsRefine` and `Panics.StepsPanicIff` are about |

## Left out

- ScheduleKeeper.Keeper.ScheduledCalls: the bech32 rendering of the contract and the nil request are not modelled.
- Refinement.StepsRefine: says nothing past a `Garbled` step, where there is no map of pending calls to refine; `Panics.StepsPanicIff`, `Versions.AgreeIff`, `Chain.IterateLeaves` and the lemmas on locked and moved pairs hold there on the bytes.
- Halting.UndecodableIffMoved: over plain pairs and heights below 2^56, as are Halting.StepsHaltIff and Halting.ReachedBlockHaltsIff; at and above 2^56 a stored height may decode as a call. `Panics.StepsPanicIff` has no such limits.
- Theorems.RunNeverHalts: one direction, kept beside the exact `Theorems.RunCompletesIff` and `Panics.StepsPanicIff` because its condition can be read off the events.
- Messages.ResponseRoundTrip: for responses that fit a Go slice, below 2^63 bytes, which is what Marshal can allocate.
- Contract executions that send this module a message while EndBlocker runs: an execution is taken not to write the schedule store.
- Nil message pointers: Size and the getters answer them with zero values.
- MsgRemoveSchedule, the empty messages, and the parameter, genesis and event messages: the same codec pattern with nothing harder, or resting on coin encodings from another repository.
- The partly filled message a failed Unmarshal leaves behind: callers discard it.
- Changes of the parameters during a run: the upper bound and minimum balance are fixed.
- determineGasLimit, genesis import and export, logging and events: nothing in the scheduler depends on them.
- Routing of messages: `handler.go` dispatches only AddSchedule, while the message server also implements RemoveSchedule; both are steps here.
