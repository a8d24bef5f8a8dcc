# Block-wise transfers of libcoap in Dafny

A Dafny 4.11 model of libcoap's RFC 7959 block-wise transfer (`src/block.c`) with the number codec it
writes options with (`src/encode.c`), the buffers it reassembles bodies in (`src/str.c`) and the timers
that end transfers (`src/coap_io.c`), together with three smaller pieces of the repository: the 8.4
pseudo-float, the reference-counted bodies of the example server and the registry of delayed requests.
`dafny verify dfyconfig.toml` checks everything.

## How the model is laid out

| file | content |
|---|---|
| `Common.dfy` | bytes, powers of two, block sizes, the window of a body that is one block |
| `VarInt.dfy` | highest set bit, variable-length integers in buffers |
| `BlockOption.dfy` | the Block option value, cutting blocks, shrinking a block to the PDU |
| `RecBlocks.dfy` | the bounded list of received ranges as a representation of a set |
| `Reassembly.dfy` | growing buffers and reassembly in any order |
| `Block1Sender.dfy`, `Block1Receiver.dfy`, `Block1Net.dfy`, `Block1Any.dfy` | Block1: client, server, both over a network, and the server under arbitrary requests |
| `Block2Server.dfy`, `Block2Client.dfy`, `Block2Net.dfy`, `Block2Mixing.dfy` | Block2: server, client, both over a network, and the client under any order of arrival |
| `Expiry.dfy` | expiry scans and the time to the next wake-up |
| `PseudoFloat.dfy`, `BodyLifetime.dfy`, `AsyncRegistry.dfy` | the smaller pieces |

Each structure the source updates in place (`coap_rblock_t`, `coap_lg_xmit_t`, `coap_lg_srcv_t`,
`coap_lg_crcv_t`, `transient_value_t`, the async list) is a class whose methods follow the source branch by
branch. The handlers are proved equal to a function of the old state and the message, and outcome by outcome
to a description that does not use that function; the theorems over whole runs are about those functions. A network is the set of everything ever sent: any message may arrive
any number of times, in any order, or never. What newly allocated memory holds, the next token, the time and
the answers of the application are parameters over which every statement quantifies. Messages carry block
options as the bytes that are really written, so that what a peer reads is what the codec makes of them.

`COAP_RBLOCK_CNT` is a parameter of at least 2 (4 in this release). The option layout is that of section 2.2
of RFC 7959, the integer format that of section 3.2 of RFC 7252.

## Where the code does not do what one would expect

Each of these is a lemma about the code as it is, next to the exact condition under which it behaves.

- A body with more than 2^20 blocks of its size is accepted by the sender (the length limit assumes the
  largest size). Block 2^20 has an option the receiver cannot read and passes for a whole request:
  `Block1Net.EndToEnd` is an equivalence with "all block numbers fit", and `TooLargeBodyMisread` gives the run.
- An acknowledgement that increases the block size is usable exactly if the block in flight ends on a boundary
  of the new size and the size does not double at block 1, where the recomputed number equals the last one and
  is taken for a repeat (`Block1Sender.ResumesIffUsable`, `DoublingAtBlockOneSkips`).
- A Block2 request for a larger size that is refused is still answered with the right bytes, but the More bit
  is computed in the old size; `Block2Server.ServesSlice` says exactly when it is wrong.
- A total announced too small makes the reassembly buffer shrink (`Reassembly.KeepsEarlierBytes`). From no buffer
  every order of arrival keeps every byte exactly if the total covers all blocks but the last
  (`Reassembly.AnyTotal`); `ShortTotalLosesBlock` gives the last block and the one before it. The same happens with an exact total if a buffer from an earlier body is left over: reassembly in any order is safe from
  exactly the buffers of `SafeStart`. A client keeps such a buffer when a recorded final block is repeated before
  its body is complete (`Block2Mixing.RepeatedFinalBlockKeepsBuffer`, `UnmixedIffSafeStart`).
- A finished entry at the server stays until it expires and answers any block number it has seen with the body it
  holds. A second body sent to the resource in the meantime is delivered faithfully in every run exactly if it is
  the same body (`Block1Net.SecondBodyIffSame`; `FirstBodyInstead` gives the run).
- A repeated block makes the server follow a null pointer exactly if its entry is complete for that block size and
  has no buffer, because there was no Size1 or the payload recorded last was empty
  (`Block1Any.NullDereferencedIff`; `NoSize1Twice` gives block 0 with M set and no Size1, sent twice).
- Over arbitrary requests the handler can be given memory that was never written: a delivered body holds only
  received bytes exactly if each of its places is covered by a payload that was not thrown away
  (`Block1Any.OnlyReceivedIffCovered`). With one block size and no payload longer than it, that is exactly if every
  payload fills its window (`OnlyReceivedIffFilled`); `ShortPayload` gives one byte delivered as 1024, and
  `MixedSizes` two payloads that fill their windows and leave 1008 bytes between them unwritten.
- When options leave a PDU less than no room (an exactly full one leaves -1), the size that fits is looked for by
  shifting a negative number right without end: coap_add_data_large_internal returns exactly if the room is not
  negative (`VarInt.HalvingReachesZero`, `Block1Sender.AddDataLarge`; `FullPduNeverReturns` gives -1).
- A later block that the application or a request asks for is cut in the size that fits but sent under the size
  asked for. It starts at the byte its option names exactly if the latter fits too (`Block1Sender.AddDataLarge`,
  `AnswerLaterBlock`; `LaterBlockIsShifted` and `LaterAnswerIsShifted` send byte 512 as byte 1024).
- The first option of a transfer is readable exactly if the application asked for a size or the PDU has less than
  4096 bytes to spare before or after the options; otherwise the size runs into the More bit and the number
  (`Block1Sender.AddDataLarge`, `BlockOption.OversizeIsMisread`; `RoomyFirstOption` gives a block of 4096 bytes
  announced as one of 16).
- The client tells the application the end of the block that completed the body as its length, which is too short
  exactly if that was not the last block (`Block2Mixing.InputStep`; `FirstBlockLastTooShort` gives blocks 1 and 0).
- A request that carries an ETag is compared with the one the application gave. One made up by the library is
  stored as 0, so it never validates and the value 0 does: validation is right exactly if the application gave an
  ETag (`Block2Server.ValidationIffGiven`).
- A client that takes a body block by block does not mark its entry for expiry with any new block, not even the
  last one; in single-body mode the block that completes the body does, if it is the last one and the resource is
  not observed (`Block2Client.PiecesNeverMark`, `SingleBodyMarks`).
- The time to the next wake-up is cut to 64 and then to 32 bits: the milliseconds are the timeout rounded up exactly
  if some pending delay is below 2^32 milliseconds or nothing waits at all. "Never" comes out as 14.7 days
  (`Expiry.PrepareIo`, `NeverInMillis`).
- A GET to the example server, or a PUT that echoes its body, leaves the count of that body exact exactly if its
  block is not refused, the room in the response is not negative by then and its transfer does not fail after the
  options are in. After a refusal, and in a call that never returns, the reference is not given back; such a failure
  gives it back twice (`BodyLifetime.Resource.Get`; `RefusedGetLeaks`, `FullResponseIsNeverAnswered`,
  `LateFailureFreesEarly` and `LateFailureFreesCurrent` give the requests).

## Model

| member | source | states |
|---|---|---|
| VarInt.Flsll | src/encode.c:18-26 | the loop returns the number of shifts that make the argument 0, which is the position of its highest set bit, and never ends if no number of shifts does |
| VarInt.HalvingReachesZero | src/encode.c:22-23 | shifting right reaches 0 exactly if the number is not negative |
| VarInt.EncodeVar | src/encode.c:37-56 | exactly the shortest big-endian form is written at the front of the buffer and nothing else changes; if it does not fit, 0 and an untouched buffer |
| VarInt.DecodeVar | src/encode.c:28-35 | the big-endian value of the bytes, kept to the width of the result |
| VarInt.RoundTrip | src/encode.c:28-86 | decoding an encoded value gives it back, for every value |
| VarInt.CanonicalRoundTrip | src/encode.c:28-56 | encoding a decoded string gives it back for every string without a leading zero byte |
| VarInt.LengthBound | src/encode.c:41-47 | k bytes suffice exactly for values below 2^(8k), so 4 and 8 bytes for the two widths |
| VarInt.EncodingIsMinimal | src/encode.c:41-47 | no byte string for a value is shorter than the one written |
| VarInt.EncodedHasNoLeadingZero | src/encode.c:41-53 | the first byte written is never zero |
| BlockOption.OptionRoundTrip | src/block.c:15-61 | a written block option reads back as the same number, More bit and SZX exactly if the number has 20 bits; otherwise it is unreadable |
| BlockOption.ReadableOption | src/block.c:34-61 | an option of up to four bytes is readable exactly if its value has 24 bits, and reading loses nothing but leading zeros |
| BlockOption.OversizeIsMisread | src/block.c:531-536 | an SZX of four bits or more in the first option is read as another number and a size of its three low bits |
| BlockOption.AddBlockIsWindow | src/block.c:124-136 | a block is the window of the body at its offset, and there is none past the end |
| BlockOption.Partition | src/block.c:124-136 | the payloads of blocks 0..n-1 put together are the body, and no other number has a payload |
| BlockOption.MoreUntilLast | src/block.c:79-83 | bytes remain after a block exactly if it is not the last of the partition |
| BlockOption.WriteBlockOpt | src/block.c:63-122 | when a block is refused, when it is shrunk and to which size (the largest that fits); the byte offset is kept, the payload fits, More is set exactly if bytes remain, and the option written is the block returned |
| BlockOption.ShrunkBlock | src/block.c:108-112 | renumbering a block for a smaller size keeps its byte offset and stays within 28 bits |
| RecBlocks.RBlocks.Update | src/block.c:1144-1197 | on success exactly the number is added to the set; on failure the list is unchanged, and it fails exactly if the number is new, touches no range and all but one entry are in use |
| RecBlocks.RBlocks.CheckIfReceived | src/block.c:742-753 | set membership |
| RecBlocks.RBlocks.CheckAllIn | src/block.c:755-771 | one run from block 0 that reaches the total; an empty list passes for a total of at most one |
| RecBlocks.CompleteMeansAllIn | src/block.c:755-771 | with no block past the end, the test holds exactly if all blocks are in |
| RecBlocks.Splice | src/block.c:1157-1186 | replacing neighbouring ranges by one that takes in a number keeps the list sorted, disjoint and non-adjacent and adds exactly that number |
| RecBlocks.Canonical | src/block.c:1144-1197 | two well-formed lists with the same members are identical |
| RecBlocks.OneRangePerRun | src/block.c:1144-1197 | a well-formed list uses one entry per run of its set |
| RecBlocks.Replay | src/block.c:1144-1197 | a new list given numbers one after the other ends as the list of their set, and accepts them all exactly if none needs a range too many |
| RecBlocks.Confluence | src/block.c:1144-1197 | two runs of updates that accept their numbers end in the same list exactly if they received the same numbers, in whatever order and with whatever repeats |
| RecBlocks.NextIsAccepted | src/block.c:1172-1173 | the next block of a gapless prefix is never refused |
| Reassembly.BuildBodyInPlace | src/block.c:1544-1583 | the method on real buffers computes the buffer function, whatever new memory holds |
| Reassembly.Realloc | src/str.c:69-87 | the common prefix survives a change of size |
| Reassembly.KeepsEarlierBytes | src/block.c:1557-1581 | earlier bytes survive a write exactly if it fits in place or reaches the end of the buffer |
| Reassembly.InOrderStep | src/block.c:1544-1583 | blocks in order rebuild the body for every announced total and every buffer left over |
| Reassembly.AbsorbKeepsSound | src/block.c:1305-1320 | each arrival keeps every recorded block's bytes in the buffer |
| Reassembly.AnyOrder | src/block.c:1305-1340 | with the exact total every arrival sequence, in any order and with repeats, keeps all recorded bytes, exactly from the safe buffers |
| Reassembly.UnsafeStartLosesBlock | src/block.c:1567-1571 | from any other buffer block 1 then block 0 loses block 1 |
| Reassembly.AnyTotal | src/block.c:1544-1583 | from no buffer and any announced total, every arrival sequence keeps all recorded bytes if and only if the total covers all blocks but the last |
| Reassembly.ShortTotalLosesBlock | src/block.c:1557-1571 | with a smaller total the last block and then the one before it lose the last |
| Reassembly.CompleteBody | src/block.c:1323-1355 | when the completeness test passes the buffer begins with the whole original |
| Block1Sender.AddDataLarge | src/block.c:348-610 | exactly when the call does not return, when it fails, when a body needs blocks and when one later block is sent; in which size the transfer starts, its first block with Size1 and More, exactly when that block's option is readable and a later block starts where its option says, and how often the release callback runs on each exit |
| Block1Sender.FullPduNeverReturns | src/block.c:397-400 | room -1 is never returned from, room 0 fails |
| Block1Sender.AnswerLaterBlock | src/block.c:670-690 | a response with a later block starts at the byte asked for exactly if the size written fits what its option has left |
| Block1Sender.LaterBlockIsShifted | src/block.c:401-431 | block 1 of 1024 bytes with 1023 bytes left is sent from byte 512 |
| Block1Sender.LaterAnswerIsShifted | src/block.c:401-431 | the same for a response whose option takes the last bytes |
| Block1Sender.RoomyFirstOption | src/block.c:531-584 | a PDU with room for 4096 bytes announces the first block as one of 16 bytes |
| Block1Sender.LgXmit.AdoptSize | src/block.c:1451-1472 | an aligned size is taken over and the completed block renumbered |
| Block1Sender.LgXmit.HandleResponse | src/block.c:1432-1539 | an error or an answer without the option ends the transfer; an aligned size is taken over; a repeat sends nothing; otherwise the block after the completed one is sent and remembered, or there is none and the transfer ends |
| Block1Sender.AckGoesOn | src/block.c:1446-1520 | the transfer function does what is described for every acknowledgement |
| Block1Sender.AdoptedNumber | src/block.c:1452-1460 | the recomputed number ends at the end of the block in flight, and clashes with the last one only for doubling at block 1 |
| Block1Sender.ReductionIsUsable | src/block.c:1452-1460 | a size that does not grow is always usable (section 2.3 of RFC 7959) |
| Block1Sender.GoodAckStep | src/block.c:1443-1520 | a good acknowledgement keeps what was sent gap-free and moves on by exactly the block in flight; a repeat changes nothing |
| Block1Sender.GaplessRun | src/block.c:1443-1520 | in every run of good acknowledgements, under any size changes, the payloads are a prefix of the body without gap or overlap, and the end means all of it |
| Block1Sender.StartIsGapless | src/block.c:575-584 | the first block starts such a run |
| Block1Sender.ResumesIffUsable | src/block.c:1451-1515 | the sender goes on with the very next byte exactly if the size in the answer is usable |
| Block1Sender.RefusedSizeMisplaces | src/block.c:1464-1471 | a refused size never leads to a block at the right offset |
| Block1Sender.DoublingAtBlockOneSkips | src/block.c:1473-1485 | doubling at block 1 is taken for a repeat and then skips a block |
| Block1Receiver.LgSrcv.Record | src/block.c:1307-1322 | a new block is recorded and written, a known one is not; a refusal is the range list's |
| Block1Receiver.LgSrcv.HandleBlock | src/block.c:1304-1365 | in single-body mode a refused block frees the entry, is answered with an error and calls nobody; any other is recorded, acknowledged as itself while blocks are missing, and ends the entry when it completes the body |
| Block1Receiver.LgSrcv.PassBlock | src/block.c:1366-1404 | without single-body mode the handler gets the block at its offset, with a total that equals its end exactly if M is clear; M clear ends the entry |
| Block1Receiver.ServerSession.HandlePut | src/block.c:1207-1419 | for every state and request: what goes to the handler untracked, which blocks free the entry, and both modes of an entry as above |
| Block1Net.InitIsStart | src/block.c:581-584 | the initial state of a run is the one the first send leaves behind |
| Block1Net.ServerStep | src/block.c:1230-1364 | every block of the body keeps the entry exact, is acknowledged as itself and never makes the handler see anything wrong |
| Block1Net.SenderStep | src/block.c:1486-1515 | an acknowledgement of block k in the current size is answered with block k + 1 |
| Block1Net.EndToEnd | src/block.c:1230-1404 | in both modes, over every loss, repetition, reordering and expiry the handler gets only the sender's body or right pieces of it, if and only if all block numbers fit the option |
| Block1Net.TooLargeBodyMisread | src/block.c:50-55 | a run in which block 2^20 passes for a whole request |
| Block1Net.PassedIsPiece | src/block.c:1366-1397 | a block passed on comes with its true offset and the length of the body |
| Block1Net.LosslessDelivers | src/block.c:1342-1404 | without losses the handler gets the whole body, or each of its blocks, for every length and size whose numbers fit; then the sender has let go of the body and the entry is marked and expires |
| Block1Net.FinishedEntryRedelivers | src/block.c:1304-1364 | a finished entry answers every known block number with its own body, whatever payload and size come with it |
| Block1Net.SecondBodyIffSame | src/block.c:1249-1364 | while the entry of a first body is kept, every run of a second transfer is faithful to its own body if and only if the two bodies are equal |
| Block1Net.FirstBodyInstead | src/block.c:1304-1364 | the first request of the second transfer delivers the first body |
| Block1Any.AlwaysKnown | src/block.c:1230-1364 | after arbitrary requests the recorded numbers, the presence of the buffer and every byte of it up to the total follow from the payloads recorded |
| Block1Any.DeliveredBytes | src/block.c:1342-1355 | each byte of a delivered body is the one last received for its place, or memory never written |
| Block1Any.NullDereferencedIff | src/block.c:1307-1352 | exactly when, after arbitrary requests, the next one makes the server follow a null pointer |
| Block1Any.NoSize1Twice | src/block.c:1352 | block 0 with M set and without Size1, sent twice, does |
| Block1Any.OnlyReceivedIffCovered | src/block.c:1318-1355 | after arbitrary requests, in any sizes, a delivered body holds only received bytes if and only if every place is covered by a payload that was kept |
| Block1Any.MixedSizes | src/block.c:1318-1355 | blocks 0 of 16 and 1 of 1024 bytes complete a body whose bytes between them were never written |
| Block1Any.OnlyReceivedIffFilled | src/block.c:1318-1355 | with one block size and no payload longer than it, that is so if and only if every payload fills its window up to the total and was not thrown away |
| Block1Any.ShortPayload | src/block.c:1318-1355 | one byte of payload with Size1 1024 delivers 1023 bytes of unwritten memory |
| Block2Server.LgXmit.HandleGet | src/block.c:982-1123 | the handler computes the serving function |
| Block2Server.LgXmit.HandleRequest | src/block.c:954-1142 | with an ETag the answer is validation against the stored one or nothing, and nothing is changed; without one the slice for the block asked for is served, or that of block 0 in the size in use, with only More off under a refused size; every block goes stale at one moment, and the entry is marked exactly if that has passed or there is no such block |
| Block2Server.StaleTogether | src/block.c:1089-1112 | every block served goes stale at the moment set by the first, or at once if that has passed |
| Block2Server.PickEtag | src/block.c:505-528 | the ETag served is never 0, and is the one stored exactly if the application gave one |
| Block2Server.ValidationIffGiven | src/block.c:505-524 | a request's ETag is found valid for exactly the ETag served if and only if the application gave one |
| Block2Server.ServesSlice | src/block.c:984-1123 | in every state the answer is the requested slice with ETag and Size2, and More is wrong exactly in the one case of a refused increase |
| Block2Server.SmallerIsTaken | src/block.c:989-1001 | a size that does not grow is never refused |
| Block2Server.ServingIsSlicing | src/block.c:954-1123 | after any requests, with or without ETag, whose size never grew, the answer depends on the representation and the request alone |
| Block2Server.RefusedIncreaseMisleads | src/block.c:1002-1010 | a concrete refused increase with a wrong More bit |
| Block2Client.Size | src/block.c:1649-1657 | the size assumed is never less than what has been seen |
| Block2Client.MissingSize2 | src/block.c:1649-1657 | without a sufficient Size2 the completeness test follows the More bit alone |
| Block2Client.FirstResponseIsTaken | src/block.c:1659-1675 | the first response of a body fixes ETag and format, is recorded as the only block, and is never a changed body, a repeat or refused, whatever the client held |
| Block2Client.LgCrcv.Conclude | src/block.c:1759-1836 | next request, delivery and reset after a recorded block |
| Block2Client.LgCrcv.PassOn | src/block.c:1838-1866 | a block outside reassembly goes to the application with its offset and total |
| Block2Client.LgCrcv.HandleContent | src/block.c:1622-1887 | for every state and response, case by case: the state, the next request or its failure, what the application gets, Observe and the mark for expiry |
| Block2Client.ContentLeadsTo | src/block.c:1622-1866 | the client function does what is described for each case: a response that is no block as it came, block 0 again after a changed ETag, a block alone at its offset, the body at the end |
| Block2Client.ContentMarks | src/block.c:1629-1881 | the entry is marked exactly at the end of a body that is not observed and on failures |
| Block2Client.SingleBodyMarks | src/block.c:1732-1881 | a new block of a single body marks the entry exactly if it completes the body, is the last one and the resource is not observed |
| Block2Client.PiecesNeverMark | src/block.c:1829-1835 | a new block handed on alone never marks the entry |
| Block2Client.WaitingIsNotMarked | src/block.c:1766-1790 | an entry whose next request went out is not marked |
| Block2Net.ServerAnswers | src/block.c:1014-1123 | every request, readable or not, is answered with a true block of the current representation |
| Block2Net.ClientStep | src/block.c:1659-1836 | a response to the current request leaves the client with a gapless prefix of one representation that its next request continues |
| Block2Net.EndToEnd | src/block.c:1596-1866 | in both modes, over every loss, repetition, reordering and replacement of the representation, a single body given to the application is one of the representations served, in full and with its length, and a piece is cut from one at the offset it says |
| Block2Net.LosslessDelivers | src/block.c:1765-1836 | without losses the application gets the whole representation, or every block of it at its true offset, for every length and size whose numbers fit |
| Block2Mixing.InputStep | src/block.c:1659-1836 | a block arriving in any order keeps recorded bytes from one representation, and what is delivered is cut from it |
| Block2Mixing.NoMixing | src/block.c:1659-1836 | in every run whose bodies start safely, no recorded byte and no delivered body combines two representations |
| Block2Mixing.NoRepeatedFinalIsSafe | src/block.c:1837-1866 | runs that do not repeat a recorded final block start every body safely |
| Block2Mixing.UnmixedIffSafeStart | src/block.c:1750-1757 | blocks of one representation in any order leave only its bytes exactly if the buffer left over is safe |
| Block2Mixing.UnsafeStartMixes | src/block.c:1750-1757 | two blocks that break every other start |
| Block2Mixing.RepeatedFinalBlockKeepsBuffer | src/block.c:1849-1855 | how a client comes to keep a buffer |
| Block2Mixing.FirstBlockLastTooShort | src/block.c:1807-1810 | blocks 1 and 0 of a two-block body, in that order, deliver it with the length of one block |
| Expiry.CheckTimeouts | src/block.c:719-740 | exactly the expired entries go, the others keep their order, and the result is the exact shortest delay or never |
| Expiry.KeptIsLeft | src/block.c:773-793 | what a scan leaves is its list without the expired entries, in order |
| Expiry.KeptExactly | src/block.c:773-793 | an entry is kept exactly if it was there and has not expired |
| Expiry.WakesExactly | src/block.c:773-793 | nothing expires before the returned delay has passed and something does when it has |
| Expiry.VisitServer | src/coap_io.c:1096-1121 | exactly the idle sessions that are due are freed; any other keeps its transfers that have not expired and everything else; the timeout covers the session's deadlines and is one of them |
| Expiry.VisitClient | src/coap_io.c:1123-1172 | a session is disconnected exactly if a ping is due and the last was not answered or none can be sent, or no CSM came in time; any other keeps its transfers, with the times of ping and CSM moved on; the same for its deadlines |
| Expiry.PrepareIo | src/coap_io.c:1055-1254 | the sessions left are those not freed or disconnected, in order, each with what it keeps; the timeout is no later than any pending moment of what went in, is one of them or "never", and is 0 exactly if nothing waits; the milliseconds round it up if and only if some pending delay is below 2^32 milliseconds or nothing waits |
| Expiry.RoundedUpIffSoon | src/coap_io.c:1254 | the result cut to 64 and 32 bits is the ceiling exactly for delays of at most 2^32 - 1 milliseconds |
| Expiry.NeverInMillis | src/coap_io.c:1254 | an unfinished client transfer and no deadline give 1271310319 milliseconds |
| PseudoFloat.DownIsGreatest | examples/tiny.c:31-40 | rounding down gives the greatest representable value not above the input |
| PseudoFloat.DownLosesLittle | examples/tiny.c:31-40 | it loses less than an eighth |
| PseudoFloat.UpIsLeast | examples/tiny.c:41 | rounding up gives the least representable value not below the input |
| PseudoFloat.EncodeInvertsDecode | examples/tiny.c:31-41 | every byte survives decoding and encoding, rounding either way |
| BodyLifetime.Resource.Release | examples/coap-server.c:187-199 | one reference less; the value is freed with the last one |
| BodyLifetime.Resource.Get | examples/coap-server.c:429-461 | whether it is answered and who holds the value afterwards, for every Block2 option, body length and room in the response; counts that were exact stay exact if and only if the block is not refused, the room is not negative and the transfer does not fail after its options |
| BodyLifetime.WriteOption | src/block.c:643-687 | the response is refused exactly for a later block past the end or a rest that does not fit where 16 bytes do not either; otherwise its option starts at the byte asked for and is unreadable only for a number that outgrew it |
| BodyLifetime.Resource.Transmit | src/block.c:376-400 | an earlier transmission for the same query ends; the new one never returns, keeps the reference, gives it back once, or twice if it fails late |
| BodyLifetime.RefusedGetLeaks | src/block.c:649-655 | a GET past the end and a PUT leave a value that nobody holds and nothing frees |
| BodyLifetime.LateFailureFreesEarly | src/block.c:557-608 | a GET in blocks, one that fails late and a PUT free a value still being sent |
| BodyLifetime.LateFailureFreesCurrent | src/block.c:557-608 | one GET that fails late frees the resource's current value |
| BodyLifetime.Resource.Put | examples/coap-server.c:562-577 | the old value is freed exactly if its count says that nothing else holds it; transmissions are untouched and exact counts stay exact |
| BodyLifetime.Resource.PutAndEcho | examples/coap-server.c:562-598 | the echoed response holds the new value as a GET would, and exact counts stay exact under the same condition |
| BodyLifetime.FullResponseIsNeverAnswered | src/block.c:397-400 | a GET whose response is exactly full takes a reference and is not answered |
| BodyLifetime.Resource.Finish | examples/coap-server.c:187-199 | the end of a transmission frees its value exactly if its count says that it was the last holder; exact counts stay exact |
| BodyLifetime.Resource.NeverFreedInUse | examples/coap-server.c:183-219 | a value whose count is not short is never freed while it is sent or current; with an exact count it is freed exactly if nobody holds it |
| AsyncRegistry.Context.Register | src/async.c:35-86 | refused exactly for a non-request or a known pair; otherwise the entry comes first and the session gains a reference |
| AsyncRegistry.Context.Find | src/async.c:106-114 | the unique entry for the pair, or none |
| AsyncRegistry.Context.Free | src/async.c:116-134 | the entry alone is unlinked and its session released |
| AsyncRegistry.Context.DeleteAll | src/async.c:136-144 | every session is back to the references others hold |
| AsyncRegistry.DelayedSessionIsReferenced | src/async.c:79 | a session with an entry has a reference beyond those of others |

## Left out

- Block1Net.EndToEnd: one transfer to one resource with a constant size and content format; responses are not matched by token, as in the source, where the test has an empty body.
- Block2Net.EndToEnd: responses for other tokens, and the client entry made up from a sent request, are not modelled; tokens come from a counter that does not wrap and the first one is not reused.
- Block2Net.EndToEnd: representations are served from a set-up transfer, always with ETag and exact Size2 as libcoap's own server sends them; a body that fits one PDU is answered by the application without blocks and is not part of this model.
- Block1Sender.AddDataLarge: the space left in the PDU before and after options is a parameter; failed allocations and the token bookkeeping are not modelled. The same code starts Block2 responses.
- Block1Receiver.ServerSession.HandlePut: one resource; Observe, the entry's unread fields and failed allocation are not modelled. What the program does after following a null pointer is not defined and not modelled.
- Block2Server.LgXmit.HandleGet: several Block2 options in one request and options that cannot be added are not modelled; add_block_send never holds more than one number.
- Block2Client.LgCrcv.HandleContent: the unread fields total_len and szx, and the bytes of the Observe option, are not modelled.
- VarInt.EncodeVar: a buffer that is too small returns 0 as with assertions disabled.
- Reassembly.BuildBodyInPlace: allocation never fails; the variant of coap_resize_binary for small systems is not modelled.
- Expiry.PrepareIo: DTLS timers and socket lists are not modelled; sums of tick values do not run over.
- BodyLifetime.Resource.Get: the room in the response at the three points is a parameter; a value that was freed is not used again, so what a later GET does with it is not modelled.
- BodyLifetime.Resource.Put: gathering a body from several requests through the cache, and notifying observers, are not modelled.
- AsyncRegistry.Context.Register: the copy of the request other than its token, and failed allocation, are not modelled.
- Percent-decoding in examples/coap-client.c, TLS, sockets, PDU and option-list internals, retransmission, cache keys: left out, they would add little to the transfer.
