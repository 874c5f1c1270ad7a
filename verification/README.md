# SwarmState, modelled

Proofs about the parts of SwarmState that carry state or arithmetic: the radio link, the gossip mesh with its bridges
and invites, the codecs behind the QR image of an invite, and the text handling of the C node. The main results are
about all inputs or about all runs; where one of them has an exception, a witness shows that it occurs. To verify the
project: `dafny verify dfyconfig.toml`.

**The radio link** (`harness/lora.py`; LoRaFrame, LoRaReceiver, LoRaProtocol, LoRaDelivery, LoRaWrap, LoRaProgress,
LoRaDeadLink, LoRaLink). Stop-and-wait over one lossy half-duplex channel, as a machine of atomic steps on two queues,
two streams and one radio: safety in every run, and when a call can get through. The classes of LoRaLink are the
objects of the source, and each method is tied to a step of the machine.

**The mesh** (`harness/meshd.py`; GossipNet, GossipInvariant, GossipRuns, GossipWork, GossipLate,
MeshDaemon, Framing). Any number of nodes and links. Recording an op, sending it to the sockets, adding a socket, cutting
the catch-up and sending it are separate steps that interleave freely, because each takes the lock on its own. A clock
is a counter and an origin; a node accepts an op if and only if the clock is new to it and the origin is on its
allowlist. Safety and the end of relaying hold in runs of any length. That no op is lost depends on the history of 256
ops only through the first catch-up of each link, op by op (`GossipRuns.InTime`).

**Bridges and invites** (`harness/bridge.py`, `harness/pool.py`; Bridge, BridgeRuns, Pool, PoolThreads). Tags, policies
and registry keys as strings; runs over any pools and bridges; the nonce map of a hub with its pruning, for joins one
after another and for joins in several threads, which no lock keeps apart.

**QR symbols** (`win/qrcodegen.js`; Galois, GaloisField, QrMath, Polynomial, Generator, ReedSolomon, QrPolynomial,
QrBuffer, QrSegments, QrDecode, Interleave, Codewords, QrCreate, QrTables, QrBlocks, Zigzag, QrSymbol, QrPatterns,
QrRoom, QrReadable, QrStandard). From the field with 256 elements, built as polynomials over two elements, to the
filled matrix and back to the segments, with the tables, capacities and examples of the standard as a second witness.
JavaScript arrays keep their unassigned slots, which `^` reads as 0 but which are not stripped as leading zeros.

**GIF and base64** (`win/qrcodegen.js`; Bits, Lzw, LzwWriter, LzwCut, Base64, Base64Streams). The string table and the
growing code width against a decoder of the GIF87a specification; the two base64 streams with their 32-bit buffers.

**The C node** (`win/swarmstate-node.c`, `harness/planner.py`; Sha256, Sha256Laws, Sha256Known, Sha256Stream, JsonText,
JsonString, JsonObject, JsonCompact, JsonEscape, Planner, JsonTokens). Streaming SHA-256 against FIPS 180-4, its
constants and its examples; brace scanning, compaction and escaping of JSON against RFC 8259; flat tokens.

Where the code does less than its comments say, the model follows the code:

- `_seen` is never cleared while message ids wrap at 65536, so the 65537th message of a stream is lost
  (`LoRaWrap.IdSpaceExhausted`).
- A sender that meets 40 or more old acknowledgements never gets a message through again while no frame is lost: each
  of its 40 waits takes one old acknowledgement, and each of its transmissions makes a new one
  (`LoRaDeadLink.ThroughIff` is the exact condition, `LoRaDeadLink.DeadLinkHappens` a witness).
- A GIF decoder of the specification may have moved on to wider codes when the end code arrives at the old width; it
  still has all pixels, but for images of exactly eleven phrases it does not see the end code (`LzwCut.CutExactly`).
- `json_compact` looks for room once for both characters of an escape, so its NUL can fall one place behind the buffer
  (`JsonCompact.JsonCompact` gives the exact condition).
- `json_escape` leaves control characters other than line feed, tab and carriage return raw, so that what it writes is
  no JSON string then (`JsonString.EscapeIsBody`); `json_unescape` keeps `\b`, `\f` and `\u` escapes as they are
  (`JsonString.UnescapeReads`).
- `sendall` tests whether the stream is closed before it takes the lock, so a call that waits for the lock sends after
  `close` (`LoRaDelivery.SentAfterClose`).
- An invite is not single-use when joins overlap: `PoolHub` takes no lock, and each connection has its reader thread
  (`PoolThreads.BothAdmitted`, `PoolThreads.LostNonceHappens`).
- "Ship our whole op history": the history holds the newest 256 ops (`GossipLate.LateJoiner`).
- A policy that admits targets outside the registry, or tagged ones, lets two bridges relay an op for ever
  (`BridgeRuns.OneHopExactly`).
- The expiry test and the pruning of invites leave the instant of expiry to neither (`Pool.ExpiryInstant`).
- `createData` writes no end code when fewer than four bits are free; the zeros up to the byte make the bits the same
  as the standard's (`QrCreate.PadBuffer`).

## Model

| member | source | states |
|---|---|---|
| LoRaDelivery.ExactlyOnceInOrder | harness/lora.py:75-224 | In every run, with any drops, timeouts and interleavings and up to 65536 `sendall` calls on a side, what `recv` hands out is an in-order, duplicate-free, byte-identical selection of what went into `sendall`, never empty; a message is handed out exactly when all its fragments were pulled; and when no data frame waits at the reader, every message whose `sendall` returned is among them |
| LoRaDelivery.RunInvariant | harness/lora.py:75-224 | Every run keeps the invariant behind this: frames on the way and frames arrived are fragments of logged messages in non-decreasing (id, index) order, and an acknowledgement, queued or noted, exists only for a fragment that arrived |
| LoRaDelivery.StepKeeps | harness/lora.py:75-227 | Each atomic step (pass the tests of `sendall`, take its lock and begin, transmit, radio pop, drop, deliver, acknowledge, pull an acknowledgement, proceed, enter `recv`, receive, time out, close) keeps the invariant of either direction |
| LoRaDelivery.ClosedRun | harness/lora.py:181-227 | After `close`, however the run goes on: the messages still taken for sending are, each once, among those with which threads had passed the closed test and waited for the lock, so none and no transmission by an idle sender if no thread waited; nothing handed out is taken back, and at most one more message is handed out, and only to a `recv` that was already in its loop |
| LoRaDelivery.SentAfterClose | harness/lora.py:182-186 | For every message that can be packed there is a run in which `close` comes first and the message is taken for sending all the same, because the closed test is made before the lock |
| LoRaProgress.Served | harness/lora.py:78-104 | The radio serves either side: whichever side's turn it is, the frame at the head of a side's queue is in the air after two slots at most, also when the other side has nothing to send; a frame of the other side that goes first ends in between |
| LoRaProgress.GetsThrough | harness/lora.py:75-224 | After any run: if fewer than forty acknowledgements of earlier transmissions are still to come, a call of `sendall` by either side, idle, open and with ids to spare, can go on without a lost frame until it has returned and its message was handed out, whether or not the other side sends anything |
| LoRaDeadLink.ThroughIff | harness/lora.py:197-208 | The condition is exact: without a further loss the message can get through if and only if at most 39 acknowledgements are still to come, in the queue of the sender, in the air, at the other side, or for data frames on their way |
| LoRaDeadLink.DeadForGood | harness/lora.py:197-208 | With 40 or more no call of that side returns any more without a loss, however the run goes on, within its first 65536 messages: each call meets old acknowledgements at all its waits and leaves 41 new ones behind |
| LoRaDeadLink.DeadLinkHappens | harness/lora.py:197-208 | A witness without any loss: 41 transmissions before the radio has moved a frame, and the 41 acknowledgements still to come end the sending of that side |
| LoRaReceiver.ReceiveCorrect | harness/lora.py:129-148 | For any stream of fragments in non-decreasing order, repetitions included, the reassembly buffer and `_seen` give out exactly the messages of which every fragment is in the stream, each whole, once and in order |
| LoRaReceiver.AcceptCorrect | harness/lora.py:129-148 | One more frame keeps that description of the receiver, whether it starts, completes or repeats a message |
| LoRaReceiver.CompletionTest | harness/lora.py:141-143 | The test `len(parts) == total` is met exactly when no fragment of the message is missing |
| LoRaReceiver.JoinIsConcat | harness/lora.py:144-146 | Joining the payloads by sorted index gives back the concatenation of the fragments |
| LoRaFrame.UnpackPack | harness/lora.py:31-45 | Packing succeeds if and only if the id and the payload length fit two bytes and index and total fit one, and unpacking then gives the frame back |
| LoRaFrame.PackLayout | harness/lora.py:28-37 | The bytes of a frame: side, kind, two bytes of id, index, total, two bytes of length, and then the payload |
| LoRaFrame.UnpackLayout | harness/lora.py:38-45 | What each byte of a received frame with a whole header is read as, and that an unknown kind is all that makes it unreadable |
| LoRaFrame.ConcatFragments | harness/lora.py:190-192 | The slices of a message put together are the message |
| LoRaFrame.FragmentLengths | harness/lora.py:189-191 | No slice is empty or longer than the payload of a frame, and all but the last have that length |
| LoRaFrame.FrameLengths | harness/lora.py:189-196 | With its header no frame is longer than `frame_cap`, and all but the last frame of a message are as long as that |
| LoRaFrame.PackAllOrNothing | harness/lora.py:193-196 | Either all fragments of a message can be packed or the first already cannot: nothing of an oversized message reaches the radio |
| LoRaWrap.AtMostOncePerId | harness/lora.py:184-224 | Over a life of any length `recv` returns no message id twice, so at most 65536 messages in all |
| LoRaWrap.IdSpaceExhausted | harness/lora.py:184-224 | The bound of 65536 is tight: in this run 65537 `sendall` calls return, no frame is lost, the reader drains its queue, and one message never comes out |
| LoRaLink.RadioLink.PopFrame | harness/lora.py:82-86 | The turn passes to the other side whether or not there was a frame; the oldest frame of the side whose turn it was leaves its queue for the air, and the other queue stays |
| LoRaLink.RadioLink.Carry | harness/lora.py:89-97 | A popped frame is dropped or put at the end of the other side's queue, as the protocol steps say |
| LoRaLink.RadioLink.QueueAckFrame | harness/lora.py:98-104 | The acknowledgement of a delivered data frame goes to the end of the receiver's own queue |
| LoRaLink.RadioLink.PullFrame | harness/lora.py:121-127 | The first frame of the wanted kind leaves the queue; the order of the others stays |
| LoRaLink.RadioLink.NextMessageTurn | harness/lora.py:129-147 | One turn of the loop: a pulled frame is filed in the buffer, and a message comes out exactly when it completes |
| LoRaLink.JoinSorted | harness/lora.py:144-146 | The loop over the sorted indices computes the joined payload |
| LoRaLink.LoRaStream.EnterSendall | harness/lora.py:181-186 | Before the lock: closed streams raise, empty data returns 0, and any other call waits for the lock |
| LoRaLink.LoRaStream.BeginSendall | harness/lora.py:186-195 | Under the lock the id is taken and the fragments are cut, closed or not, as the protocol step says; what is going to be sent fits the link |
| LoRaLink.LoRaStream.TryOnce | harness/lora.py:195-204 | One transmission of the current fragment; the 41st raises although the message may have arrived |
| LoRaLink.LoRaStream.NoteAck | harness/lora.py:205-207 | Only an acknowledgement of the message being sent is noted |
| LoRaLink.LoRaStream.LeaveRetry | harness/lora.py:197-208 | The retry loop is left only when the fragment was acknowledged; after the last one `sendall` returns |
| LoRaLink.LoRaStream.BeginRecv | harness/lora.py:210-212 | `recv` on a closed stream returns no bytes; otherwise the reader enters the loop |
| LoRaLink.LoRaStream.RecvTurn | harness/lora.py:213-224 | A completed message is handed out unless its id was seen, and the id is remembered; the time-out is raised only where there is no message, so a duplicate starts the wait anew |
| LoRaLink.LoRaStream.CloseStream | harness/lora.py:226-227 | The close step of the runs |
| Lzw.RasterRoundTrip | win/qrcodegen.js:2127-2187 | A decoder of the GIF87a specification, which fills its table one entry late and meets codes it does not know yet, recovers every pixel of every non-empty image from the packed bits, and stops at the end code exactly when the table does not stand at a power of two or a padding bit follows |
| Lzw.DecodePhrases | win/qrcodegen.js:2148-2179 | From any point of the scan at which the two tables are in step, the codes still to be written decode to the pixels still to be read, through the growth of the code width and the freeze of the table at 4095 entries |
| Lzw.InStepEmit | win/qrcodegen.js:2162-2176 | Writing a code and learning a phrase keeps the decoder exactly one entry behind, at the same width |
| LzwCut.CutExactly | win/qrcodegen.js:2148-2184 | The end code is cut short if and only if the greedy parse of the image has exactly eleven phrases: of all the powers of two the table can stand at, only 16 fills whole bytes |
| LzwCut.TableSize | win/qrcodegen.js:2127-2187 | At the end the table has five entries more than the greedy parse has phrases, and never more than 4095 |
| LzwCut.RasterEnds | win/qrcodegen.js:2127-2187 | So the decoder gets every pixel of every image and meets the end code unless the parse has eleven phrases |
| LzwCut.EndCodeCutHappens | win/qrcodegen.js:2179-2184 | A witness: 56 equal pixels, the fewest of one colour with eleven phrases |
| LzwWriter.BitOutputStream.Write | win/qrcodegen.js:2100-2116 | A code that fits its length is appended to all bits written so far, least significant bit first, across byte boundaries; any other throws and leaves the stream as it was |
| LzwWriter.BitOutputStream.Flush | win/qrcodegen.js:2118-2122 | The bytes are the bits written, filled up with zeros |
| LzwWriter.LzwTable.Add | win/qrcodegen.js:2196-2202 | A new key gets the next index and every key keeps its own; a key that is there already throws and changes nothing |
| LzwWriter.GetLzwRaster | win/qrcodegen.js:2127-2187 | The loop over table and bit stream produces exactly the bits of the code list, reaches neither throw, and what it writes decodes to the image as `LzwCut.RasterEnds` says |
| LzwWriter.OnePixel | win/qrcodegen.js:2127-2187 | The raster of a single pixel of value 0 is the bytes 0x44 0x01 |
| GaloisField.Order | win/qrcodegen.js:1134-1149 | The powers of the generator return to 1 after 255 steps and not earlier, so all table entries below 255 differ |
| GaloisField.AlphaSurjective | win/qrcodegen.js:1147-1149 | Every nonzero byte is one of these powers, so every logarithm is assigned |
| GaloisField.LogAlpha | win/qrcodegen.js:1147-1149 | The logarithm of a power below 255 is its exponent |
| GaloisField.MulAssoc | win/qrcodegen.js:1132-1176 | Multiplication modulo x^8 + x^4 + x^3 + x^2 + 1 is associative |
| GaloisField.MulComm | win/qrcodegen.js:1132-1176 | Multiplication is commutative |
| GaloisField.MulAdd | win/qrcodegen.js:1132-1176 | Multiplication distributes over exclusive or, from either side |
| Galois.AlphaAdd | win/qrcodegen.js:1132-1176 | Powers multiply by adding exponents |
| QrMath.AlphaRecurrence | win/qrcodegen.js:1141-1146 | The recurrence that fills the table computes the powers of the generator |
| QrMath.Tables.constructor | win/qrcodegen.js:1134-1149 | The loops leave every power in the one table and every logarithm in the other, with the slot of 0 unassigned |
| QrMath.Tables.Glog | win/qrcodegen.js:1153-1160 | Logarithm of a nonzero byte, an exception for 0, undefined for an undefined argument |
| QrMath.Tables.Gexp | win/qrcodegen.js:1162-1173 | For any integer exponent, negative ones too, the power with that exponent modulo 255 |
| QrMath.LogProduct | win/qrcodegen.js:1214-1218 | The sum of two logarithms is an exponent of the product |
| ReedSolomon.CodeWordMultiple | win/qrcodegen.js:292-300 | Data bytes followed by the error correction bytes are a multiple of the generator polynomial, for every block and every number of bytes for which they exist |
| ReedSolomon.CodeWordRoots | win/qrcodegen.js:292-300 | So a code word vanishes at the n consecutive powers a^0 .. a^(n-1) |
| ReedSolomon.CodeWordUnique | win/qrcodegen.js:292-300 | No other n bytes behind the data give a multiple of the generator |
| ReedSolomon.EcBytesExist | win/qrcodegen.js:1153-1160 | The bytes exist if and only if at most 254 are asked for, or 255 for a block of zeros; in all other cases `glog` throws |
| ReedSolomon.ModCongruent | win/qrcodegen.js:1223-1242 | The recursion of `mod` ends with a rest shorter than the divisor that differs from the dividend by a multiple of it, on arrays with unassigned slots too |
| ReedSolomon.CancelShrinks | win/qrcodegen.js:1229-1241 | Every subtraction cancels the leading slot, so the next array is shorter |
| ReedSolomon.ModOk | win/qrcodegen.js:1223-1242 | `mod` throws exactly when there is something to divide and the divisor has a coefficient 0 |
| Polynomial.EvalProduct | win/qrcodegen.js:1210-1221 | Evaluating a product multiplies the values |
| Polynomial.SmallMultiple | win/qrcodegen.js:1223-1242 | A multiple of lower degree than the divisor is zero |
| Generator.GeneratorRoots | win/qrcodegen.js:966-972 | The generator of degree n vanishes at the first n powers |
| Generator.Ratio | win/qrcodegen.js:966-972 | Neighbouring coefficients are in the ratio of Gaussian binomials |
| Generator.CoefficientNonzero | win/qrcodegen.js:966-972 | Up to degree 254 no coefficient of a generator is 0, so building the next one never asks for the logarithm of 0 |
| Generator.CoefficientVanishes | win/qrcodegen.js:966-972 | At degree 255 one coefficient is 0 |
| QrPolynomial.Make | win/qrcodegen.js:1188-1198 | Leading zeros are stripped, leading unassigned slots are not, and `shift` unassigned slots are appended |
| QrPolynomial.Multiply | win/qrcodegen.js:1210-1221 | The product of the two polynomials, an exception exactly when both have coefficients and either has a coefficient 0, unassigned slots when one has none, and a RangeError exactly when neither has any |
| QrPolynomial.ModOf | win/qrcodegen.js:1223-1242 | The recursion over logarithm tables computes the division that `ReedSolomon.ModCongruent` describes |
| QrPolynomial.ErrorCorrectPolynomial | win/qrcodegen.js:966-972 | The generator of any degree up to 255, an exception above |
| QrPolynomial.BlockEcBytes | win/qrcodegen.js:292-300 | `ecdata` of one block: the rest of the division, filled up on the left with zeros, or the exception of `ReedSolomon.EcBytesExist` |
| Codewords.BlocksRecovered | win/qrcodegen.js:303-329 | From the output of `createBytes` and the block sizes every data block and all its error correction bytes come back |
| Codewords.SegmentsRecovered | win/qrcodegen.js:332-384 | From the same output a reader of the standard gets back the list of segments, whenever each count fits its field |
| Codewords.SmallBlocks | win/qrcodegen.js:277-301 | The error correction bytes exist for all blocks of which none asks for more than 254 |
| Interleave.InterleavedAt | win/qrcodegen.js:311-327 | Each entry of each row lies at the position that the lengths determine |
| Interleave.PositionsInOrder | win/qrcodegen.js:311-327 | These positions are in the order of the standard: the first entries of all rows in the order of the rows, then the second ones, and so on |
| Interleave.RowsRoundTrip | win/qrcodegen.js:311-327 | De-interleaving an interleaving gives the rows |
| Interleave.OutputRoundTrip | win/qrcodegen.js:311-327 | Interleaving a de-interleaved output gives the output: every index is written exactly once |
| QrCreate.CreateBytes | win/qrcodegen.js:267-330 | The loops over blocks, columns and rows write exactly those code words, and fail exactly when some block has no error correction bytes |
| QrCreate.InterleaveInto | win/qrcodegen.js:311-318 | One writing loop appends one interleaving and moves the index past it |
| QrCreate.PadBuffer | win/qrcodegen.js:359-381 | End code, zeros and pad code words bring the buffer to exactly the capacity, as sections 7.4.9 and 7.4.10 of ISO/IEC 18004:2015 lay down, also where the end code does not fit |
| QrCreate.CreateData | win/qrcodegen.js:332-384 | An illegal character, an overflow of the capacity, or the code words of the padded segment stream: each outcome exactly in its case. What those code words are is the business of the rows `QrDecode.SameWidths` and `QrStandard` |
| Codewords.PaddedTerminated | win/qrcodegen.js:359-367 | Behind the segments there are four zeros or fewer than four bits |
| QrStandard.ZerosBehind | win/qrcodegen.js:359-367 | The code words start with the bits of the segments, and all bits from there to the end of the byte in which the terminator ends are zero |
| QrStandard.PadBytes | win/qrcodegen.js:369-381 | All code words behind that byte are 236 and 17 in turn, 236 first |
| QrStandard.OneByteExample | win/qrcodegen.js:332-384 | The 19 code words of the byte 0x41 at version 1 and level L, one by one |
| QrStandard.NumericExample | win/qrcodegen.js:338-343 | The bits of the digits 01234567, as in section 7.4.3 of ISO/IEC 18004 |
| QrStandard.AlphaNumExample | win/qrcodegen.js:338-343 | The bits of AC-42, as in section 7.4.4 of ISO/IEC 18004 |
| QrDecode.SameWidths | win/qrcodegen.js:974-1010 | The widths that the writer gives to the count of characters are those of the reader's own table, section 7.4.1 of ISO/IEC 18004 |
| QrStandard.Capacities | win/qrcodegen.js:332-384 | The capacities of the standard at level L, for versions 1, 9, 10, 26, 27 and 40, exactly: 41, 552, 652, 3283, 3517 and 7089 digits fit and no more, likewise 25, 335, 395, 1990, 2132 and 4296 alphanumeric characters, and 17, 230, 271, 1367, 1465 and 2953 bytes |
| QrStandard.LevelCapacities | win/qrcodegen.js:332-384 | And those at the levels M, Q and H of versions 1 and 40 |
| QrBuffer.QrBitBuffer.PutBit | win/qrcodegen.js:1586-1598 | One bit is added behind all others |
| QrBuffer.QrBitBuffer.Put | win/qrcodegen.js:1576-1580 | The low bits of a number are added, most significant first |
| QrBuffer.QrBitBuffer.GetAt | win/qrcodegen.js:1571-1574 | Reads back any bit |
| QrBuffer.PackBitsRoundTrip | win/qrcodegen.js:1586-1598 | The bytes of the buffer are its bits and zeros up to a whole byte |
| QrDecode.StreamRoundTrip | win/qrcodegen.js:338-343 | A reader with its own tables of mode, count widths and group widths recovers any list of numeric, alphanumeric and byte segments from the bits written for it, at every version |
| QrDecode.NumericRoundTrip | win/qrcodegen.js:1622-1640 | Any digit string decodes from its groups of 10, 7 and 4 bits, whatever follows |
| QrDecode.AlphaNumRoundTrip | win/qrcodegen.js:1679-1695 | Any string over the 45 characters decodes from its groups of 11 and 6 bits, whatever follows |
| QrDecode.BytesRoundTrip | win/qrcodegen.js:1743-1747 | Any bytes decode from their groups of 8 bits |
| QrSegments.WriteNumber | win/qrcodegen.js:1622-1640 | Appends the groups of a digit string, and throws exactly when a character is no digit |
| QrSegments.WriteAlphaNum | win/qrcodegen.js:1679-1695 | Appends the groups of an alphanumeric string, and throws exactly when a character has no code |
| QrSegments.WriteBytes | win/qrcodegen.js:1743-1747 | Appends the bytes |
| QrSegments.StrToNum | win/qrcodegen.js:1642-1655 | The value of a digit string, or an exception exactly when a character is no digit |
| QrSegments.NumberFits | win/qrcodegen.js:1628-1639 | A group of one, two or three digits fits 4, 7 or 10 bits |
| QrSegments.CodeOfChar | win/qrcodegen.js:1697-1720 | Each character has a code below 45 that stands for no other |
| QrStandard.CodesOfTable | win/qrcodegen.js:1697-1720 | The code of a character is its place in table 5 of ISO/IEC 18004, and no other character has one |
| Zigzag.PositionInverse | win/qrcodegen.js:225-263 | Every module outside column 6 is visited, at the place in the order that its row and column determine |
| Zigzag.CellInverse | win/qrcodegen.js:225-263 | No module is visited twice, and none in column 6 |
| Zigzag.MapData | win/qrcodegen.js:216-265 | After the loops, which end, every free module outside column 6 holds the data bit due at its visit, exclusive or the mask, and every other module is as before |
| Zigzag.WalkIsOrder | win/qrcodegen.js:225-263 | The order of the visits is that of a pen moved by the rule of section 7.7.3 of ISO/IEC 18004: from right to left within a pair of columns, to and fro between the borders, the column of the timing pattern left out |
| Zigzag.MappedAlongWalk | win/qrcodegen.js:216-265 | What the k-th module of that walk holds in a filled matrix |
| Zigzag.BitsRecovered | win/qrcodegen.js:231-251 | Reading the free modules along the zigzag gives the data bits in order, none skipped and none repeated, and light modules behind them |
| Zigzag.MapPair | win/qrcodegen.js:229-262 | One pair of columns, up to the reversal at the edge |
| QrSymbol.ModulesRecovered | win/qrcodegen.js:216-265 | The code words come back from the matrix byte for byte when it has room for them |
| QrSymbol.SymbolReadable | win/qrcodegen.js:45-72 | All stages together, for any pattern of free modules and any block list with room for its code words: from the filled matrix of 4 * version + 17 modules a side a reader gets the segments back |
| QrReadable.EverySymbolReadable | win/qrcodegen.js:43-73 | At each of the 40 versions and 4 levels the room is there: every list of legal segments that fits the capacity comes back from the matrix with the patterns and blocks of that version and level, whatever the mask |
| QrReadable.CapacityFitsCounts | win/qrcodegen.js:974-1010 | Whatever fits the capacity of a version and level fits the count fields, so no other condition on the lengths is needed |
| QrReadable.MakeSymbol | win/qrcodegen.js:43-73 | Patterns, code words and placement together: a symbol results if and only if all characters are legal and the stream fits; the segments can be read back from it, and all patterns still have their colours |
| QrRoom.FreeInSymbol | win/qrcodegen.js:43-65 | At every version the patterns leave at least as many modules on the way of the zigzag as the sizes of the patterns say |
| QrBlocks.RowFits | win/qrcodegen.js:1253-1500 | In each of the 160 rows of the block table the code words fill that room up to fewer than eight modules, no block asks for more than 254 error correction bytes, the blocks are as even as they can be, and there are as many data bytes and blocks as tables 7 and 9 of ISO/IEC 18004 say |
| QrStandard.EvenRow | win/qrcodegen.js:1253-1500 | A row is known from its numbers of code words, data bytes and blocks and from being even, so those tables leave no choice in any row |
| QrBlocks.GetRsBlocks | win/qrcodegen.js:1526-1551 | The list of blocks of a row of the table, or an exception exactly for versions outside 1 to 40 |
| QrPatterns.SetupPatterns | win/qrcodegen.js:43-65 | The loops take exactly the modules of the position, adjustment and timing patterns, the type information and, from version 7 on, the version information, and leave all others free; in the end each of these modules has its colour: rings around the centres, dark and light in turn, and the given bits |
| QrPatterns.PositionsStepped | win/qrcodegen.js:863-904 | The centres of the adjustment patterns start at 6, end 7 before the edge, and lie evenly apart but for the first step, as Annex E of ISO/IEC 18004 has it |
| QrPatterns.SetupProbe | win/qrcodegen.js:75-96 | The modules of one position pattern and its margin, as far as they are inside, and no others |
| QrPatterns.SetupAdjust | win/qrcodegen.js:133-162 | Every adjustment pattern except the three whose centre a position pattern has taken, none of them disturbed by another |
| QrPatterns.SetupTiming | win/qrcodegen.js:116-131 | Dark and light in turn, only where nothing is yet |
| QrPatterns.SetupTypeInfo | win/qrcodegen.js:179-214 | Each of the 15 bits at its two places, and the fixed module |
| QrPatterns.SetupTypeNumber | win/qrcodegen.js:164-177 | Each of the 18 bits at its two places |
| GossipRuns.NoOpLost | harness/meshd.py:167-205 | At every point of every run of any length: on a link whose catch-up has been cut, each op of the sending end is with the receiver, in flight, in the catch-up, about to be sent by its own thread, or refused because its origin is not on the receiver's list, in any interleaving of joins and publications. Only the first catch-up of the link has to be in time for the op: cut before the op is recorded, or while it is among the newest 256 |
| GossipRuns.SafeRun | harness/meshd.py:167-205 | Every run, of any length and without any bound, keeps the invariant of logs, tasks, frames and catch-ups |
| GossipRuns.ShortRunInTime | harness/meshd.py:154-156 | Every catch-up is in time for every op in a run at the end of which no node has recorded more than 256 ops |
| GossipRuns.StepKeeps | harness/meshd.py:167-205 | Publishing, recording, sending to all sockets, joining, cutting a catch-up, sending from it and delivering each keep that invariant, and lose no op anywhere except where a first catch-up comes too late for it |
| GossipInvariant.OpSnapshot | harness/meshd.py:517-541 | A first snapshot taken after the socket joined misses no op that the history still holds or has yet to get; later snapshots miss nothing at all |
| GossipInvariant.OpSend | harness/meshd.py:172-181 | An op that leaves its thread is in flight on every joined link except the one it came from, where the other end has it |
| GossipInvariant.OpDeliver | harness/meshd.py:187-205 | A frame is discarded only when the receiver has the op or refuses its origin |
| GossipRuns.AcceptedAtMostOnce | harness/meshd.py:187-197 | In every run of any length no node accepts two ops of one clock, and none that was not published |
| GossipRuns.TrustedOnly | harness/meshd.py:187-197 | In every run a node holds only ops that were published at the node itself or whose origin is on its allowlist, if it has one |
| GossipRuns.SentNotBack | harness/meshd.py:172-181 | An op that leaves its thread is one frame more on every joined direction of its node, and none on the one it came from |
| GossipRuns.WireInOrder | harness/meshd.py:172-181 | In runs of any length, what arrives over one direction of a link is what was sent on it, in that order; the rest is still in flight |
| GossipRuns.Converged | harness/meshd.py:167-205 | In a connected mesh that has settled, with all origins allowed, a node holds an op if and only if it was published, provided every first catch-up was in time for that op; the run may be of any length |
| GossipWork.RelayingEnds | harness/meshd.py:187-205 | From every state that a run can reach: without new publications a run is no longer than the work that is left, so relaying ends |
| GossipWork.StepWork | harness/meshd.py:167-205 | Every step but a publication uses up work, however many ops were recorded |
| GossipWork.StuckIsSettled | harness/meshd.py:167-205 | Where no step but publishing is possible, all links have joined and nothing is left to send |
| GossipLate.LateJoiner | harness/meshd.py:517-541 | Being in time is needed and 256 is exact: a node that links up after n ops ends up with the newest 256 of them, so with all of them if and only if n is at most 256 |
| MeshDaemon.Daemon.Record | harness/meshd.py:183-185 | The history is the newest 256 recorded ops |
| MeshDaemon.Daemon.SendToAll | harness/meshd.py:172-181 | Every socket but the excepted one gets the frame, once |
| MeshDaemon.Daemon.Broadcast | harness/meshd.py:167-170 | A local op is recorded and goes to every socket |
| MeshDaemon.Daemon.Apply | harness/meshd.py:187-205 | An op is accepted if and only if there is no allowlist or its origin is on it, and no logged op has its counter and origin; then it is logged, recorded and relayed to all other sockets, otherwise nothing changes |
| MeshDaemon.Daemon.SendCatchUp | harness/meshd.py:517-526 | The socket gets the whole history in order |
| MeshDaemon.Daemon.StartConn | harness/meshd.py:528-541 | A new connection is among the sockets and has the history |
| MeshDaemon.Daemon.RemoveSock | harness/meshd.py:575-577 | Exactly the closed socket leaves the list |
| Framing.ReadAll | harness/meshd.py:542-574 | However the stream is cut into chunks, exactly its non-blank terminated lines are dispatched, in order, and the unterminated rest stays in `buf` |
| Framing.Reader.Feed | harness/meshd.py:561-566 | One chunk: the lines it completes, and the new rest |
| Framing.SplitAppend | harness/meshd.py:561-563 | Of the past only what is behind the last newline matters |
| Framing.SplitTerminated | harness/meshd.py:561-563 | Lines without newlines, terminated and followed by a rest without one, are found again |
| Framing.KeptLine | harness/meshd.py:563-566 | A line is dropped if and only if it has nothing but the six characters that `strip` takes for white space |
| Framing.FramesAppend | harness/meshd.py:562-574 | So of any lines those are kept, in their order |
| Framing.TerminatedSplit | harness/meshd.py:561-563 | Every stream is such lines and such a rest |
| BridgeRuns.ForeignStaysForeign | harness/bridge.py:87-148 | In every run over any pools and tagging bridges, an op that crossed carries the tag of the first pool it left, is tagged if and only if it was published in the registry, is shorter than 96 characters, and feeds a `POOL:` key or none |
| BridgeRuns.OneHopExactly | harness/bridge.py:63-68 | Between two pools joined by two bridges with nodes of their own in both, no op ever crosses twice if and only if, of the targets shorter than the 96 characters at which `publish` raises, the policy admits only untagged registry targets |
| BridgeRuns.HopsRun | harness/bridge.py:63-68 | With such policies no op crosses twice in any run over any pools and bridges |
| BridgeRuns.CrossingUsesUp | harness/bridge.py:124-148 | Each crossing then leaves one fewer to come, so relaying ends |
| BridgeRuns.PingPong | harness/bridge.py:63-68 | Otherwise such a target, shorter than 96 characters, travels to and fro without end |
| Bridge.ForeignOnly | harness/meshd.py:47-73 | A target that went through `_tag_target` never feeds a key of the local partition |
| Bridge.LocalKey | harness/meshd.py:56-62 | Learning under reg/family/sig/strat feeds the local key |
| Bridge.ForeignKey | harness/meshd.py:63-72 | The same learning arrives across a bridge under the name of its pool |
| Bridge.OnlySuch | harness/meshd.py:47-73 | And nothing else feeds the registry: an op that feeds it came under a target of one of these two kinds |
| Bridge.SplitJoined | harness/meshd.py:56-56 | The parts of a target have no slash in them and, joined by slashes, are the target |
| Bridge.TagIdempotent | harness/bridge.py:113-122 | A second bridge leaves the tag alone |
| Bridge.DefaultUntagged | harness/bridge.py:50-53 | The default policy admits exactly the targets under reg/STRAT/, none of them tagged |
| Bridge.PrefixPattern | harness/bridge.py:63-68 | A glob of a prefix without wildcards or brackets and a star matches exactly the targets with the prefix |
| Bridge.PlainPattern | harness/bridge.py:63-68 | A glob without wildcards matches itself and nothing else |
| Bridge.QuestionPattern | harness/bridge.py:63-68 | A question mark matches any one character |
| Bridge.StarPattern | harness/bridge.py:63-68 | A star between two plain parts matches any string, the empty one too |
| Bridge.BridgePolicy.Check | harness/bridge.py:63-84 | Allowed means: within the time to live, under reg/ if data is minimized, and matched by one of the globs; and one log line gives the reason of the verdict |
| Bridge.PoolBridge.Relay | harness/bridge.py:124-147 | What is published on the other side under which target, also when the tag makes the target too long to publish, and which counter moves |
| Bridge.AllCalled | harness/bridge.py:28-44 | Chained handlers all run, each once, in the order in which they were attached |
| PoolThreads.OneNamePerNonce | harness/pool.py:117-134 | Over every interleaving of any number of joins in any threads, whatever is pruned: a nonce admits one name, provided invites with one nonce have one expiry, every lookup is made strictly before the expiry, and a nonce is noted while no other thread stands between lookup and note with another name for it, or holds a pruned copy without it |
| PoolThreads.OneAtATime | harness/pool.py:117-134 | In particular in every run in which joins do not overlap |
| PoolThreads.TwoReaders | harness/pool.py:127-132 | The condition on lookups is needed: two threads that have both looked one nonce up for different names admit both, however the run goes on, as soon as both have noted it |
| PoolThreads.BothAdmitted | harness/pool.py:127-132 | A witness from every hub with at most 8192 nonces and nobody inside `join`, for every new invite: two readers, no pruning, one instant before the expiry, two names |
| PoolThreads.LostNonceHappens | harness/pool.py:124-132 | The condition on copies is needed: with more than 8192 nonces held, a copy assigned late forgets a nonce noted in between, and the next reader is admitted under another name |
| PoolThreads.SequentialRun | harness/pool.py:117-134 | Every run of joins one after another is a run of the threads |
| Pool.OneIdentityPerInvite | harness/pool.py:117-134 | Over every run of joins one after another, with a clock that does not run backwards, one expiry per nonce and readings strictly before it, a nonce admits one name, whatever is pruned |
| Pool.ReplayAdmitted | harness/pool.py:117-134 | Companion of `Pool.OneIdentityPerInvite`: without its conditions one call of a stranger on a taken nonce is admitted if and only if more than 8192 nonces are held and the clock read by the pruning has reached an expiry that the check still let pass |
| Pool.ExpiryInstant | harness/pool.py:73-74 | At the instant of expiry a second name is admitted: the check rejects only later readings and the pruning keeps only later expiries |
| Pool.TwoExpiries | harness/pool.py:117-134 | Two invites with one nonce and two expiries let two names in |
| Pool.PoolHub.JoinPool | harness/pool.py:117-134 | A join that no other thread comes between is accepted if and only if the invite is authentic and not past its expiry, the name has 1 to 31 characters, and its nonce is not in use under another name or is pruned now, which takes more than 8192 nonces and an expiry that is over; then the name is a member and the nonce is noted. Other nonces are forgotten exactly by that pruning |
| Sha256Stream.HashChunks | win/swarmstate-node.c:217-243 | However a message is cut into updates, the digest is the SHA-256 of the whole message |
| Sha256Known.AbcDigest | win/swarmstate-node.c:185-243 | The digest of `abc` is ba7816bf .. f20015ad, the first example of FIPS 180-4 |
| Sha256Known.LongDigest | win/swarmstate-node.c:185-243 | The digest of the message of 56 characters and two blocks, the second example |
| Sha256Known.NilDigest | win/swarmstate-node.c:185-243 | The digest of the empty message |
| Sha256Laws.ChooseBits | win/swarmstate-node.c:207-207 | The choice takes the bit of the second word where the first has a one, else that of the third |
| Sha256Laws.MajorityBits | win/swarmstate-node.c:210-210 | The majority is symmetric, and two equal or two opposite words decide it |
| Sha256Laws.SigmasLinear | win/swarmstate-node.c:200-209 | Each of the four sigmas is linear over exclusive or |
| Sha256Laws.SigmasOnBits | win/swarmstate-node.c:200-209 | And the places to which each single bit goes, by which a linear function is known |
| Sha256Laws.PrimesInOrder | win/swarmstate-node.c:185-193 | The 64 numbers of the next row are the first 64 primes, none left out |
| Sha256Laws.RoundConstants | win/swarmstate-node.c:185-193 | The i-th round constant is the first 32 bits of the fraction of the cube root of the i-th prime |
| Sha256Laws.InitialConstants | win/swarmstate-node.c:217-220 | The initial words are those of the square roots of the first eight primes |
| Sha256Stream.Context.Update | win/swarmstate-node.c:222-231 | The bytes fed grow by the data: whole blocks are compressed, the rest is in the buffer |
| Sha256Stream.Context.Final | win/swarmstate-node.c:232-243 | The blocks compressed are exactly the padded message, the padding loop stops at offset 56, and the output is the digest |
| Sha256Stream.Context.Block | win/swarmstate-node.c:195-216 | The schedule array and the rounds on eight variables compute the compression of section 6.2.2 of FIPS 180-4, which the rows `Sha256Laws` and `Sha256Known` pin down |
| Sha256.LengthField | win/swarmstate-node.c:233-239 | Below 2^61 bytes the last eight bytes of the padding say how many bits the message has |
| Sha256.PaddingInjective | win/swarmstate-node.c:232-240 | Below 2^61 bytes different messages are padded differently |
| Sha256.BigEndianAt | win/swarmstate-node.c:238-239 | The shifts of the length loop give the bytes of the number, most significant first |
| JsonText.ExtractShortest | win/swarmstate-node.c:605-621 | The scan from the first brace stops after n characters if and only if that slice is the shortest whose braces balance outside string literals |
| JsonText.ExtractNothing | win/swarmstate-node.c:605-621 | It finds nothing if and only if no slice from the first brace balances |
| JsonObject.WholeObject | win/swarmstate-node.c:605-621 | From any reply the first object is found, whole: whatever stands before it without a brace and whatever follows it, however deep its braces nest, and whatever its strings hold that is legal by section 7 of RFC 8259 |
| JsonString.InsideLiteral | win/swarmstate-node.c:610-615 | The scanner is inside the literal up to the closing quote of any string that is legal by RFC 8259, and outside behind it |
| Planner.SameSlice | harness/planner.py:387-417 | The planner picks the same slice as the node from every text without NUL, stripped, fenced or neither; where a NUL cuts the text short for the node, the node may find nothing but never another slice |
| Planner.ExtractLoop | harness/planner.py:394-417 | The loop computes that slice |
| JsonEscape.ExtractJsonObject | win/swarmstate-node.c:605-621 | The loop of the node computes that slice |
| JsonCompact.CompactExtracts | win/swarmstate-node.c:428-445 | A slice the extractor found, compacted, is found again whole |
| JsonCompact.CompactIdempotent | win/swarmstate-node.c:428-445 | Compacting twice is compacting once |
| JsonCompact.KeepsLiterals | win/swarmstate-node.c:428-445 | String literals are kept byte for byte |
| JsonCompact.KeepsSkeleton | win/swarmstate-node.c:428-445 | Outside them exactly the white space is removed |
| JsonCompact.NoBlankOutside | win/swarmstate-node.c:428-445 | No space, tab or newline is left outside string literals |
| JsonCompact.JsonCompact | win/swarmstate-node.c:428-445 | In a buffer of any size the longest prefix of the compacted text that leaves room for the NUL is written, except that the NUL falls behind the buffer if and only if the text does not fit and an escape starts in the last place but one |
| JsonCompact.OverrunHappens | win/swarmstate-node.c:428-445 | A witness of that exception for every buffer size from 3 on |
| JsonEscape.EscapeRoundTrip | win/swarmstate-node.c:594-656 | Unescaping an escaped text gives the text |
| JsonString.EscapeIsBody | win/swarmstate-node.c:594-604 | The escaped text is the inside of a string of section 7 of RFC 8259 if and only if every character below 0x20 in the text is a line feed, a tab or a carriage return; a reader of the RFC then reads the text |
| JsonString.NoneLeftRaw | win/swarmstate-node.c:594-604 | No line feed, tab or carriage return is ever left raw |
| JsonString.UnescapeReads | win/swarmstate-node.c:633-653 | Unescaping the inside of any legal string gives what a reader of the RFC reads if and only if it has no escape but those of the quote, the two slashes, n, t and r; otherwise the result is longer |
| JsonString.QuoteBehindBody | win/swarmstate-node.c:665-672 | The scan for the closing quote passes over the inside of any legal string |
| JsonEscape.QuoteStops | win/swarmstate-node.c:665-672 | The scan for the closing quote stops at the quote behind an escaped text, never inside it |
| JsonEscape.PlanFromReply | win/swarmstate-node.c:658-679 | From a reply that carries a text escaped the node extracts the plan that is in the text |
| JsonEscape.NoKey | win/swarmstate-node.c:659-660 | Without the key nothing is extracted |
| JsonEscape.NoValue | win/swarmstate-node.c:661-663 | Nor is anything where no string follows the first key behind spaces and tabs |
| JsonEscape.JsonEscape | win/swarmstate-node.c:594-604 | In a buffer with any room at all the longest prefix that leaves six characters to spare is written, never half an escape, and nothing past the end; only where there is no room does the NUL fall behind the buffer. What an escaped text is, the rows `JsonString` say |
| JsonEscape.EscapeFits | win/swarmstate-node.c:594-604 | With room for two characters per input character, and seven more, nothing is cut off |
| JsonEscape.JsonUnescape | win/swarmstate-node.c:633-653 | The loop computes the unescaped text in a buffer of the size of its input |
| JsonEscape.FindQuote | win/swarmstate-node.c:665-672 | The loop finds the closing quote or the end |
| JsonEscape.OllamaExtractPlan | win/swarmstate-node.c:658-679 | Key, blanks, value and extraction together, with each way to find nothing |
| JsonTokens.Span | win/swarmstate-node.c:303-315 | On the flat tokens of any JSON tree `js_span` is the number of tokens of the subtree |
| JsonTokens.Get | win/swarmstate-node.c:317-326 | `js_get` gives the root token of the value of the first pair with the key, or NULL exactly when no pair has it |
| JsonTokens.LookupFirst | win/swarmstate-node.c:317-326 | Of several pairs with the key the first one counts |
| JsonTokens.LookupAt | win/swarmstate-node.c:317-326 | At that index the whole value lies |
| Base64.Base64RoundTrip | win/qrcodegen.js:1879-2006 | Decoding the encoding of any bytes gives the bytes |
| Base64.EncodedLength | win/qrcodegen.js:1921-1936 | The text has four characters for every three bytes, the last group filled up |
| Base64.CharRoundTrip | win/qrcodegen.js:1892-1907 | Each of the 64 characters decodes to its value and is neither padding nor white space |
| Base64.CharOfAlphabet | win/qrcodegen.js:1892-1907 | The alphabet is table 1 of RFC 4648 |
| Base64.EncodedGroup | win/qrcodegen.js:1909-1919 | Three bytes make these four characters of it, whatever follows |
| Base64.EncodedOne | win/qrcodegen.js:1921-1936 | One byte that is left makes two characters and two pads |
| Base64.EncodedTwo | win/qrcodegen.js:1921-1936 | Two bytes make three characters and one pad |
| Base64.ReadAllLegal | win/qrcodegen.js:1958-2006 | A text that is decoded without an exception has nothing but the alphabet and white space before its end or its first pad |
| Base64.ShiftIn | win/qrcodegen.js:1911-1911 | Shifting new bits into a 32-bit number keeps the pending bits, whatever falls off the top |
| Base64Streams.EncodeStream.WriteByte | win/qrcodegen.js:1909-1919 | A byte is added to those written |
| Base64Streams.EncodeStream.Flush | win/qrcodegen.js:1921-1936 | The text is the encoding of section 4 of RFC 4648 of all bytes written, padding included |
| Base64Streams.DecodeStream.ReadByte | win/qrcodegen.js:1958-1987 | The next byte, the end or an exception, and the bits and the text that are left |
| Base64Streams.EncodeAll | win/qrcodegen.js:1879-1943 | The stream writes the encoding of any bytes |
| Base64Streams.DecodeAll | win/qrcodegen.js:1949-2006 | Reading to the end gives what the encoding stands for, or an exception |

## Left out

- Airtime, the counters in `stats`, logging and the payload-length field of an unpacked frame (harness/lora.py): nothing reads them back.
- Interleavings inside the methods of the classes: each method describes a call by itself. What threads do to each other is the business of the runs (LoRaProtocol, GossipNet, PoolThreads). For the log and the counters of a bridge, which several threads share without a lock, there are no such runs.
- The exception that Python raises when the map of nonces changes while it is being copied: the copy is one step.
- Two readers on one side of a link: each side has one reader, as the mesh daemon uses it.
- Clocks and timeouts: a timeout is a step that may happen at any point; what a deadline says is a parameter.
- Broken links: the gossip runs have lossless links that stay up, and a link that comes up again is a new link. OSError in `_send_all` and `_send_catchup` is not modelled.
- Allowlists that change during a run (`join`, `join_ok`, `member_added` in harness/meshd.py): each node's allowlist is fixed.
- Links of a node to itself.
- `publish_many` and `lora_share`: they bypass `_broadcast`, so such ops never enter the publisher's history and catch-up cannot promise them.
- The op format and the fold of the C mesh base: an op is its clock and a body, and applying it is the test whether its clock is new, in one step. The base is not part of this model.
- Control messages (capabilities, file serving, inference requests) and the choice of the handler for a dispatched line.
- HMAC, tokens and identities: whether an invite is authentic is an input of `Pool.Join`.
- The order of the member list in a join reply (harness/pool.py:134): the reply is the set.
- Bridges that share a node in a pool: each bridge of the runs has nodes of its own. Bridges that share a node do not hear each other's publications there.
- Bridges with `tag_source` off: the runs have tagging bridges, the default; `Bridge.PoolBridge.Relay` covers both.
- The time window of a bridge in runs: a crossing may or may not happen, so every window is covered.
- Character classes in globs: `Bridge.Matches` knows `*` and `?`. The run theorems hold for any choice of admitted targets.
- Targets published past `publish` (startup publications and the stdin feed of harness/meshd.py): the runs start from `publish`, which raises for 96 characters and more.
- Parsing the extracted slice (`json.loads`), and the choice of planner backend.
- `Sha256Stream.DigestOf`: the digest is taken from the state in one expression instead of a loop over eight words.
- The tokenizer that makes the flat tokens: the tokens are those of a given tree.
- The BCH codes of type and version information, mask functions, mask scoring and the automatic choice of a version: the bits, the mask and the version are inputs, and a reader that knows version, level and mask is assumed.
- Kanji segments.
- The GIF header, the colour tables and the cutting of the raster into sub-blocks.
- SVG, HTML and ASCII rendering, the web interface and the shell scripts.
- `infer/llama_infer.c`, `win/stubs/regex.h` and `harness/orchestrator.py`: foreign calls, unsound matching, and bounded case analysis.
