# A verified model of the STANAG 5066 stack

This project models the protocol engines and stream codecs of a STANAG 5066 Edition 3 HF stack in Dafny and proves what
they promise. `dafny verify dfyconfig.toml` checks all of it. Nothing of the stack was executed.

## What is modelled

Each engine appears twice. A *specification* gives every operation as a function on an immutable record of the
engine's fields. A *class* keeps the same fields and updates them in place with the program's own loops and branches;
every method is proved to change the fields exactly as the function says. Whole runs and several nodes are then argued
about on the functions: a run is a list of steps, `After` gives the state it leads to, and the results hold for every
run. Times are parameters, callbacks are history lists, and bytes are integers from 0 to 255.

| Area | Files | Main results |
|---|---|---|
| Selective-repeat ARQ (Annex C, C.4.2) | `ArqTypes` `ArqSegs` `ArqTx` `ArqRx` `ArqRxProof` `ArqRxSteps` `ArqAckProof` `ArqTxProof` `ArqSlots` `ArqLink` `ArqTimers` `ArqCalls` `ArqLimits` `ArqLoss` `ArqLong` `ArqLoops` `ArqEngine` `ArqWire` | delivered C_PDUs are a prefix of those submitted over lossy channels; exactly when an acknowledged segment is lost, and exactly which C_PDUs can arrive; edges agree across wraps; selective ACK round trip; a number goes on the air again only when an ACK or its timer says so, and the link fails only after all retries; what each call gets done |
| Management stop-and-wait (C.3.9) | `Management` `ManagementLink` `ManagementAir` `ManagementWire` | in order, at most once, acknowledged means delivered, every repetition on the air in full and in time, up to 254 messages abandoned in a row, and 255 is too many |
| Checks (C.3.2.8, C.3.2.11) | `Xor` `Crc` `CrcDetect` `CrcGenerator` `CrcLoops` | accepted exactly when the frame is a multiple of the standard's generator; linearity, residue, every burst up to the register width is rejected |
| D_PDU codec (C.3.2.5) | `Dpdu` `DpduCodec` `DpduCodecProof` `DpduCanonical` `DpduLayout` `DpduLoops` | every frame bit by bit as the standard draws it; round trip for all ten types and address sizes; exactly which received frames re-encode to themselves |
| Streams (MIL-STD-188-110D Appendix A) | `Stream` `Search` `Framing` `Packets` `Modem110d` `ModemReceiver` | parsing does not depend on how the stream is cut; a window of D_PDUs arrives as that window |
| Non-ARQ (C.3.2.3) | `NonArqTrackers` `NonArqRuns` `NonArqBurst` `NonArqEngine` `NonArqExpiry` | interval and bitmap reassembly agree; bursts arrive in any order; exactly when the announced time covers the airtime |
| Expedited ARQ (C.3.7, C.4.3) | `Expedited` `ExpeditedLink` `ExpeditedLimit` `ExpeditedAir` | deliveries are exactly the C_PDUs of which everything arrived, up to 254 segments passed over in a row, and 255 is too many; when a repeat is harmless; when and how often a segment goes on the air |
| Channel access (Annex B, B.3.2) | `Cas` `CasProof` `CasLimits` `CasBounds` `CasSteps` `CasEngine` | at most one call; exactly when a request is accepted, and what every event does to every link; exactly which steps go beyond the capacity limits; bounded retries |
| SIS transmit queue (Annex A) | `SisQueue` `SisProof` `SisOrder` | exactly which requests get in, expire and go down; conservation; exactly when one request overtakes another |
| IPv4 fragmentation (RFC 791, 3.1 and 3.2) | `IpFragment` | valid fragments that reassemble in any order; when the loop ends |
| Character streams, text lines, RCOP segments (Annex F) | `Coss` `CossFlush` `TextProtocol` `TextLayout` `Rcop` | packing and its exact converse; nothing lost by the input buffer, and every chunk leaves for a reason and in time; text round trip under any cutting; when a message gets through |

`Prelude`, `Bits`, `Chunking` and `Layout` hold shared values, bit arithmetic, the cutting of byte strings into pieces
and headers as bit strings. `WireLayout` gives the layout of modem packets, link control messages, dense packing and
RCOP segments.

## Hypotheses of the end-to-end results

- `ArqLink`: the window size is 128; channels keep the order and may lose frames; no reset happens, and a run ends when
  the link is declared failed. One direction of traffic is modelled, which is one transmit half and one receive half;
  the other direction is the same with the roles exchanged, because ACKs travel in frames of their own. Two more
  hypotheses are exact:
  - a C_PDU has at most 128 segments: a run of longer ones delivers nothing (`ArqLong.LongNeverDelivered`), and a C_PDU
    on its own can be delivered if and only if it fits (`ArqLong.DeliverableIff`);
  - a frame with a bad data CRC may arrive as long as it does not fall on a segment that has been reported as received:
    a run keeps every reported segment if and only if it keeps to this (`ArqLimits.AcknowledgedKeptIff`), and
    `ArqLoss.AcknowledgedSegmentLost` is a run that does not and ends with the C_PDU off the queue and never delivered.
- `ArqTimers.RepeatedInTime`: the clock does not run backwards between the two transmissions; `RepeatedLate` and
  `FailsAfterAllRetries` need no such hypothesis.
- `ManagementLink`: fewer than 255 messages in a row are abandoned (`BoundIsTight` shows that 255 are too many).
- `ExpeditedLink`: fewer than 255 segments in a row are passed over (`ExpeditedLimit.BoundIsTight` shows that with 255
  parts of two C_PDUs are delivered as one), and a segment is received again only if it is the first or the last of a
  longer C_PDU; `RepeatHarmlessIff` shows that these are the repeats that change nothing, and `RepeatedDelivery` shows
  another one delivering a C_PDU twice. `ExpeditedAir.CanStillSucceed` keeps to the same runs.
- `Modem110d`: no error report arrives during the reception, since that takes the connection down
  (`ModemReceiver.DriveStops`).
- `SisOrder.NoOvertaking`: clock values do not decrease along the accepted requests. `SisOrder.OrderIff` gives the exact
  condition on a run instead, and `SisOrder.ClockBackOvertakes` the run in which the clock decreases between two
  requests. Ranks may change from dispatch to dispatch.

## Where the code differs from what its documentation suggests

- A corrupted duplicate overwrites a slot that was already received (`src/arq.py:680-685`), so an acknowledged segment
  can be lost again, and its C_PDU with it: `ArqLoss.AcknowledgedSegmentLost`, `ArqLimits.CorruptionHarmlessIff`.
- A C_PDU of more than 128 segments is accepted, but on its own it can never be delivered: `ArqLong.DeliverableIff`.
- The guard of 28 bytes on the MTU (`src/annex_f/ip_client.py:59-75`) prevents an endless loop only for headers of 20
  bytes: `IpFragment.LoopEndsIff`.
- A fragment with the MF bit set that is fragmented again loses the bit on its last piece
  (`src/annex_f/ip_client.py:174-178`): `IpFragment.LastFlagIff`.
- A CAS node counts its links against the limits of 2 Exclusive and `max_nonexclusive_links` Nonexclusive ones only when
  a remote node asks, not when its own call is accepted, so nothing bounds the links that it opens itself:
  `CasLimits.BeyondIff`, `CasLimits.CallingExceeds`.
- An expedited segment received twice can be delivered twice: `ExpeditedLink.RepeatedDelivery`.
- The transmission times are rounded down, so at high rates the announced time of a non-ARQ burst can be less than its
  airtime. What is dropped must not exceed the margins of the D_PDUs: `NonArqBurst.EotCoversIff`. It never does up to
  96001 bit/s, nor at 97000 bit/s, nor at 120000 bit/s with addresses of up to 5 half-bytes:
  `NonArqBurst.EotCoversAirtime`. At 200000 bit/s it can: `NonArqBurst.RateBoundNeeded`.
- Requests of one client and priority overtake each other when the clock is set back between them:
  `SisOrder.ClockBackOvertakes`.
- An RCOP message whose length is a positive multiple of 2042 never gets through, and the short last segment must come
  after all the others: `Rcop.HandedIff`, `Rcop.MultipleNeverArrives`.

## Model

| member | source | states |
|---|---|---|
| ArqLink.DeliveryIsPrefix | src/arq.py:396-756 | In every reachable state of a sender and a receiver joined by lossy FIFO channels the delivered list is a prefix of the submitted list, no number was sent more than 1 + `max_retries` times, and until the link fails the transmit queue is what remains after C_PDUs all of which were delivered |
| ArqLink.EdgesAgree | src/arq.py:552-572 | Whenever the sender is idle, its lower edge, its next sequence number, the receiver's lower edge and its delivery edge are the same 8-bit number, after any number of wraps |
| ArqLink.UpperEndIsFixed | src/arq.py:458-495 | While a C_PDU is in progress `tx_lwe + tx_count` modulo 256 equals `next_seq` plus its segment count |
| ArqLink.SlotsHoldOwnFrames | src/arq.py:477-486 | In every reachable state each slot of the transmit window holds the frame of exactly its own sequence number |
| ArqLimits.CorruptionHarmlessIff | src/arq.py:680-689 | A frame with a bad data CRC leaves everything that has been reported to the sender in place if and only if it does not fall on a held slot whose segment has been reported |
| ArqLimits.AcknowledgedKeptIff | src/arq.py:658-756 | Over a whole run an acknowledged segment is never lost if and only if no corrupted frame wipes out a segment that has been reported |
| ArqLoss.AcknowledgedSegmentLost | src/arq.py:396-756 | For every C_PDU of two segments a run from the initial state at whose end the C_PDU has left the queue as acknowledged and nothing was delivered |
| ArqLong.LongNeverDelivered | src/arq.py:458-639 | C_PDUs of more than 128 segments are never delivered, whatever is lost, damaged or sent again: a run that submits only such ones delivers nothing |
| ArqLong.DeliverableIff | src/arq.py:458-639 | A C_PDU can be delivered in some run of its own if and only if it fits 128 segments of 1023 octets |
| ArqLink.CallTxIsBurst | src/arq.py:396-415 | One `process_tx` call puts exactly the frames of its burst on the air, in order |
| ArqLink.CallTxIsRun | src/arq.py:396-415 | Such a call is a run of single transmit steps, so all run results hold for it |
| ArqLink.CallSendsOnce | src/arq.py:396-415 | In every reachable state one call sends each number of the window at most once, in increasing order, and leaves the engine in IDLE or WAIT_ACK |
| ArqCalls.CallDoesAll | src/arq.py:396-572 | In every reachable state a call that begins or goes on with a C_PDU leaves no frame of the window PENDING, one that retransmits leaves none NACKED, one that finds everything acknowledged closes the C_PDU and sends all of the next one, and every frame no longer PENDING has been put on the air |
| ArqTimers.RepeatedLate | src/arq.py:513-549 | In every reachable state a call that puts a number on the air again has a reason: since its last transmission an ACK has arrived, or this call or an earlier one has found its time run out |
| ArqTimers.RepeatedInTime | src/arq.py:513-549 | With no ACK since, and a clock that does not run backwards, a number goes on the air again at least `retx_timeout_ms` after its last transmission |
| ArqTimers.NothingBeforeTime | src/arq.py:533-572 | While no time has run out, a waiting sender with nothing NACKED and not everything acknowledged sends nothing, and the call leaves the whole system as it is |
| ArqTimers.FailsAfterAllRetries | src/arq.py:513-531 | The link is declared failed only when some number has been put on the air exactly 1 + `max_retries` times and is missing again |
| ArqTxProof.FirstSlotSurvivesIff | src/arq.py:477-486 | Segmentation leaves the first segment in the ring if and only if the C_PDU has at most 128 segments; beyond that later segments overwrite it |
| ArqTxProof.BurstOnce | src/arq.py:497-572 | The burst of one call is increasing in window offset from the first wanted frame on, and ends idle or waiting |
| ArqTxProof.TxSingleInv | src/arq.py:417-572 | One pass of the state machine keeps every slot on its own frame, moves no edge back, acknowledges nothing, and stays within the retry budget |
| ArqTxProof.OnAckInv | src/arq.py:718-756 | An ACK moves the lower edge to the receiver's edge, keeps the upper end, and marks nothing as acknowledged but frames with a set bit |
| ArqSlots.TxPass | src/arq.py:417-572 | What one pass does to the frame of every number of the window: at most one goes out, for the first time or because it is missing or overdue; the others stay, or are found missing because they are overdue |
| ArqSlots.OnAckExact | src/arq.py:718-756 | An ACK acknowledges, or reports missing, exactly the frames that its bits stand for; no timer and no retry count changes |
| ArqRxProof.StoreKeeps | src/arq.py:686-699 | Storing a segment in its slot gains that segment and loses none |
| ArqRxProof.NoDelivery | src/arq.py:604-639 | While a segment of the C_PDU in progress is missing nothing is delivered |
| ArqRxProof.FullDelivery | src/arq.py:574-639 | When its last segment is in, exactly the C_PDU in progress is delivered and its slots are freed |
| ArqRxProof.OnDataExact | src/arq.py:658-716 | What an intact segment does to ring, edges and deliveries, for every position relative to the window |
| ArqRxSteps.DeliveryFrees | src/arq.py:574-602 | A delivery empties exactly the slots of the C_PDU, and every other slot keeps what it holds |
| ArqRxSteps.ByMarkAndCheck | src/arq.py:658-716 | Any frame from any peer: marked to be dropped it counts as received, without data if its check is bad; a bad check alone marks its slot as damaged and delivers nothing; every frame asks for an acknowledgement |
| ArqAckProof.BitmapExact | src/arq.py:193-233 | The bitmap has at most 16 bytes, and bit `k` is set exactly when the frame `k + 1` above the edge is held |
| ArqAckProof.ParsedBit | src/arq.py:236-257 | A number of the transmit window is parsed exactly when the bitmap reaches it, and then with its own bit |
| ArqAckProof.SelectiveAckRoundTrip | src/arq.py:193-257 | Across any wrap, a number up to the receiver's upper edge parses as acked exactly when it is held, and no padding bit ever parses as acked |
| ArqSegs.CpduData | src/arq.py:140-190 | The data of the segments of a C_PDU is the C_PDU, in the number of segments computed by rounding up |
| ArqLoops.SegmentCpdu | src/arq.py:140-190 | The segmentation loop gives the segments with consecutive numbers, first and last marked, and the edge flags on the edges |
| ArqLoops.ScanFor | src/arq.py:497-510 | The scan finds the first window offset with a given status |
| ArqLoops.ScanTimeouts | src/arq.py:533-549 | The timer scan marks exactly the frames whose time has run out, and reports whether any was waiting and whether any is NACKED |
| ArqLoops.ScanAllAcked | src/arq.py:552-559 | The result is true exactly when every frame of the window is acknowledged |
| ArqLoops.ParseBitmap | src/arq.py:236-257 | The parsing loop gives the specified map from numbers to bits |
| ArqLoops.ApplyAcks | src/arq.py:732-741 | Applying the parsed bits in whatever order marks every slot by its own bit |
| ArqLoops.AckFirst | src/arq.py:746-755 | The frames below the peer's edge become acknowledged, and no others |
| ArqLoops.FindUpperEdge | src/arq.py:204-215 | The loop finds the highest frame of the window that is held or marked damaged |
| ArqLoops.BuildBitmap | src/arq.py:193-233 | The bit loop builds the specified bitmap |
| ArqEngineModel.ArqEngine.SubmitCpdu | src/arq.py:348-358 | A C_PDU joins the queue; an empty one is ignored |
| ArqEngineModel.ArqEngine.ResetFull | src/arq.py:313-346 | Both windows and the queue are cleared, except the labels that the program leaves in the receive slots |
| ArqEngineModel.ArqEngine.ProcessTx | src/arq.py:396-415 | The frames of one call are the ACK that is due and then the data burst; it terminates |
| ArqEngineModel.ArqEngine.ProcessTxSingle | src/arq.py:417-572 | One pass sends a pending ACK, or else does one step of the five-state machine |
| ArqEngineModel.ArqEngine.SegmentNext | src/arq.py:458-495 | The head of the queue fills the transmit window |
| ArqEngineModel.ArqEngine.SendOne | src/arq.py:497-511 | The next PENDING frame goes out, or the engine starts to wait |
| ArqEngineModel.ArqEngine.RetransmitOne | src/arq.py:513-531 | The next NACKED frame goes out again, or the link fails when it is out of retries |
| ArqEngineModel.ArqEngine.CheckAcks | src/arq.py:533-572 | Timers, the turn to retransmission, and the turn to the next C_PDU |
| ArqEngineModel.ArqEngine.CloseCpdu | src/arq.py:560-569 | An acknowledged C_PDU leaves the queue and the window moves past it |
| ArqEngineModel.ArqEngine.ProcessRxData | src/arq.py:658-716 | Receipt of a data frame, intact, corrupted or outside the window |
| ArqEngineModel.ArqEngine.AdvanceLwe | src/arq.py:706-712 | The lower edge moves past the frames held in sequence; it terminates |
| ArqEngineModel.ArqEngine.TryDeliverAll | src/arq.py:604-639 | Every complete C_PDU below the edge is delivered; it terminates |
| ArqEngineModel.ArqEngine.DeliverCpdu | src/arq.py:574-602 | One C_PDU is handed over and its slots are freed |
| ArqEngineModel.ArqEngine.ProcessRxAck | src/arq.py:718-756 | Receipt of an ACK changes only the transmit fields, as specified: bits of the bitmap, and the edge |
| ArqWire.DataSurvives | src/arq.py:161-189 | A segment encoded as a D_PDU and decoded is the segment, with a good data check |
| ArqWire.AckSurvives | src/arq.py:641-653 | An acknowledgement encoded and decoded is the acknowledgement |
| ArqWire.DamageMarked | src/dpdu_frame.py:409-489 | Damage to data or check within 32 consecutive bits leaves the header readable and marks the data as bad |
| ManagementLink.InOrderOnce | src/management.py:101-224 | Over lossy FIFO channels, with fewer than 255 messages abandoned in a row, the callback receives an in-order, duplicate-free subsequence of the messages sent, and every message whose pending slot an ACK cleared was handed over |
| ManagementLink.BoundIsTight | src/management.py:176-224 | A run with 255 messages abandoned in a row in which a message is acknowledged and never handed over |
| ManagementAir.SentInFull | src/management.py:128-174 | In every reachable state the pending message has had exactly `reps` * (1 + retransmissions) D_PDUs on the air, and a message given up `reps` * (1 + `max_retries`) |
| ManagementAir.RepeatedLate | src/management.py:128-174 | A message goes on the air again, or is given up, only when its timeout has passed since it went on the air last |
| ManagementAir.CanStillSucceed | src/management.py:128-224 | From every reachable state with a message pending and retries left, one tick when it is due, the arrival of a copy and the arrival of its ACK clear the pending slot |
| ManagementWire.MessageSurvives | src/dpdu_frame.py:684-712 | A message of up to 23 octets, encoded as a D_PDU and decoded, arrives with its type cut to 4 bits and its contents to 8 |
| ManagementWire.FrameSurvives | src/management.py:176-224 | Every message or acknowledgement that fits its fields survives the wire, with a good header check |
| ManagementWire.RepetitionTable | src/arq.py:38-59 | The copies per transmission for every data rate and interleaver setting |
| Management.ManagementEngine.Submit | src/management.py:101-106 | A message is queued under the next id |
| Management.ManagementEngine.ProcessTx | src/management.py:128-174 | Retransmission, give-up, the next message with its repetitions, or the error of an oversized one |
| Management.ManagementEngine.ProcessRx | src/management.py:176-224 | An ACK clears the pending slot of its id; a message is answered, and handed over if it is new |
| Crc.Chaining | src/crc.py:22-43 | The check of a concatenation is the check of the second part started from that of the first |
| Crc.Linear | src/crc.py:22-43 | The check is linear over exclusive-or, of messages and of start values |
| Crc.ZeroIff | src/crc.py:83-100 | At most 16 (or 32) bits bring a register to zero exactly when it holds those bits |
| CrcDetect.WireRoundTrip | src/crc.py:46-60 | The wire bytes of a check give the check back |
| CrcDetect.AcceptedIffResidueZero | src/crc.py:68-80 | A received pair of data and check is accepted exactly when the check of the whole is zero |
| CrcDetect.Residue | src/crc.py:63-65 | The check of a message followed by its own check is zero, for both widths |
| CrcDetect.ErrorResidue | src/crc.py:22-43 | A corrupted frame leaves the residue of its error pattern |
| CrcDetect.BurstDetected | src/crc.py:68-118 | Any corruption confined to 16 (CRC-16) or 32 (CRC-32) consecutive bits, anywhere in a frame of any length, is rejected |
| CrcDetect.OddErrorsDetected | src/crc.py:22-43 | The 16-bit check rejects every odd number of flipped bits |
| CrcGenerator.ResidueZeroIff | src/crc.py:22-100 | A message leaves residue zero exactly when it is a multiple of the generator, given by the exponents of the standard: 16, 15, 12, 11, 8, 6, 3, 0 and 32, 27, 25, 23, 21, 18, 17, 16, 13, 10, 8, 7, 6, 3, 2, 1, 0 |
| CrcGenerator.AcceptedIffMultiple | src/crc.py:68-118 | A received pair of data and check is accepted exactly when the whole is a multiple of that generator |
| CrcLoops.Crc16Stanag | src/crc.py:22-43 | The nested loops compute the 16-bit check from any start value |
| CrcLoops.Crc32S5066 | src/crc.py:83-100 | The nested loops compute the 32-bit check from any start value |
| CrcLoops.Crc16AppendixA | src/modem/appendix_a_codec.py:103-116 | The modem interface's own loop computes the same 16-bit check on every input |
| DpduCodecProof.EncodableIff | src/dpdu_frame.py:92-228 | Encoding succeeds for exactly the D_PDUs whose fields fit their type |
| DpduCodecProof.AddressRoundTrip | src/dpdu_frame.py:59-89 | An address pair of any size from 1 to 7 survives its packing |
| DpduCodecProof.SpecificBack | src/dpdu_frame.py:108-358 | The type-specific header of every type is read back |
| DpduCodecProof.RoundTrip | src/dpdu_frame.py:361-489 | Decoding an encoded D_PDU of any type gives back every field on the wire, with both checks good |
| DpduCanonical.SpecificForward | src/dpdu_frame.py:231-358 | Re-encoding a parsed type-specific header gives the same bytes exactly when its spare bits are clear |
| DpduCanonical.ReencodedIff | src/dpdu_frame.py:361-489 | A received frame with good checks, decoded and encoded again, is the same frame exactly when its spare header bits are clear |
| DpduLayout.FrameLayout | src/dpdu_frame.py:59-406 | The frame of every D_PDU that can be sent: sync octets, every header field of its type bit by bit and most significant bit first in the order of the standard, the 16-bit check, and user data with its 32-bit check, both checks least significant octet first |
| DpduLayout.HeaderBuilt | src/dpdu_frame.py:361-378 | The header builder succeeds exactly for the fields that can be sent, whatever user data a type without any is given, and its bytes are that header bit by bit |
| DpduLoops.EncodeAddressLoop | src/dpdu_frame.py:59-72 | The nibble loops build the specified address bytes |
| DpduLoops.DecodeAddressLoop | src/dpdu_frame.py:75-89 | The nibble loops read the specified addresses |
| DpduLoops.HeaderWithoutCrc | src/dpdu_frame.py:361-378 | The header up to its check, or the error of a payload or header that does not fit |
| DpduLoops.DpduObject.EncodeDpdu | src/dpdu_frame.py:381-406 | Encoding gives the specified frame and writes checks and bytes back into the object; a failure leaves it alone |
| DpduLoops.DpduObject.ValidateHeaderCrc | src/dpdu_frame.py:492-498 | With bytes the verdict is that of decoding them; without, the stored check must be there and equal the one computed from the fields; bytes or fields that cannot be used give the error |
| DpduLoops.EncodeThenValidate | src/dpdu_frame.py:381-498 | Encoding succeeds exactly for encodable fields, and then validates and decodes to them |
| Stream.Chunked | src/modem/dpdu_framing.py:108-140 | For any steady parser, parsing first what has arrived and then the rest gives the items and the residue of parsing all at once |
| Stream.AnyPieces | src/modem/appendix_a_codec.py:173-218 | The same for any number of pieces |
| Stream.UnitsParse | src/modem/appendix_a_codec.py:213-218 | A concatenation of complete units is parsed into exactly their items, whatever follows |
| Search.FindsFirst | src/modem/appendix_a_codec.py:177-178 | The search finds the first occurrence, and none only when there is none |
| Framing.WireSizeExact | src/modem/dpdu_framing.py:26-57 | The measured size of an encoded D_PDU is its length, whatever stands before and after it |
| Framing.EncodedRun | src/modem/dpdu_framing.py:114-140 | A run of encoded D_PDUs is cut into exactly those D_PDUs, and what follows is handled on its own |
| Framing.GarbageDropped | src/modem/dpdu_framing.py:119-127 | Leading bytes without a sync are dropped as if they had never been there |
| Framing.SplitAfterRun | src/modem/dpdu_framing.py:60-86 | On any bytes the splitter finds what the reassembler finds, and then whatever it can salvage from the residue |
| Framing.SplitEncoded | src/modem/dpdu_framing.py:60-86 | Splitting a concatenation of encoded D_PDUs gives the D_PDUs |
| Framing.SplitStream | src/modem/dpdu_framing.py:60-86 | The splitting loop computes the specified split; it terminates |
| Framing.DrainIsRun | src/modem/dpdu_framing.py:114-140 | The drain loop, which jumps from sync to sync, computes what the byte-wise parser computes |
| Framing.DpduReassembler.Feed | src/modem/dpdu_framing.py:108-112 | Fed bytes give the D_PDUs and the residue of parsing old residue and new bytes together |
| Framing.DpduReassembler.Drain | src/modem/dpdu_framing.py:114-140 | The buffer keeps exactly the residue |
| Framing.DpduReassembler.Scan | src/modem/dpdu_framing.py:114-140 | The loop over positions; it terminates on any bytes |
| Packets.TakenIsIntact | src/modem/appendix_a_codec.py:180-211 | A packet is taken only if its exact encoding, both checks included, stands at the front |
| Packets.EncodedTaken | src/modem/appendix_a_codec.py:139-155 | An encoded packet is recognised as it stands, whatever follows |
| Packets.PacketsRoundTrip | src/modem/appendix_a_codec.py:139-218 | Reading concatenated encodings gives back exactly the packets |
| Packets.OnlyIntact | src/modem/appendix_a_codec.py:180-218 | On any bytes at all the reader returns only packets that stand intact in the stream, in order and without overlap |
| Packets.GarbageDropped | src/modem/appendix_a_codec.py:183-190 | Leading bytes without a preamble are dropped |
| WireLayout.PacketLayout | src/modem/appendix_a_codec.py:139-155 | Preamble, type, length and checks of a packet bit by bit, with numbers and checks most significant octet first |
| Packets.PacketReader.Feed | src/modem/appendix_a_codec.py:173-175 | Bytes are added at the end |
| Packets.PacketReader.Read | src/modem/appendix_a_codec.py:180-211 | The next complete packet and the buffer behind it, or nothing; it terminates |
| Packets.PacketReader.ReadAll | src/modem/appendix_a_codec.py:213-218 | All packets in the buffer, and the residue |
| Modem110d.PlanCarries | src/modem/tcp_110d_adapter.py:491-541 | Whatever is sent ahead of the start, the data packets are the tagged pieces in order |
| Modem110d.TransmitWindow | src/modem/tcp_110d_adapter.py:491-541 | The packets sent for one window: nothing, the arming alone, or arming, exactly as many pieces as hold the head start but never the last one, start, and remaining pieces |
| WireLayout.WindowLayout | src/modem/tcp_110d_adapter.py:491-541 | Every packet of a window octet by octet: the arming, the pieces with their order tags 1 to 4, and the start commands between them |
| Modem110d.WindowDelivered | src/modem/tcp_110d_adapter.py:406-415 | A window cut, tagged, packetised and handed over by TCP in any pieces is received as exactly that window, whatever an earlier truncated reception left behind |
| Modem110d.SentWindowDelivered | src/modem/tcp_110d_adapter.py:491-541 | The same for what the sender's own method puts on the wire |
| Modem110d.OnlyTransfersMatter | src/modem/tcp_110d_adapter.py:378-404 | Packets that carry no data and report no error do not touch what has been received |
| ModemReceiver.DriveIsDispatch | src/modem/tcp_110d_adapter.py:354-376 | Without an error report the receive loop handles every packet of the buffer, in order |
| ModemReceiver.DriveStops | src/modem/tcp_110d_adapter.py:354-382 | The first error report ends the reception: every packet before it is handled, the connection goes down, and nothing after it is read |
| ModemReceiver.Receiver.OnDataTransfer | src/modem/tcp_110d_adapter.py:406-415 | A data packet resets the reassembler when it starts a reception, and feeds it |
| ModemReceiver.Receiver.DispatchPacket | src/modem/tcp_110d_adapter.py:378-404 | One packet; an error report takes the connection down |
| ModemReceiver.Receiver.OnReceive | src/modem/tcp_110d_adapter.py:354-376 | Bytes from the socket drive reading and dispatching |
| NonArqTrackers.MergeCorrect | src/non_arq.py:56-84 | Merged ranges stay sorted and strictly separated, and cover exactly what was covered and the new range |
| NonArqTrackers.WholeIsOne | src/non_arq.py:108-118 | One range from 0 to the end is there exactly when every byte is covered |
| NonArqTrackers.MergeRanges | src/non_arq.py:56-84 | The merging loop computes the specified list |
| NonArqTrackers.AbsorbLoop | src/non_arq.py:512-522 | The byte loop marks and copies exactly the bytes of the segment and counts the new ones |
| NonArqTrackers.StepAgrees | src/non_arq.py:86-118 | A segment inside the C_PDU keeps interval list and bitmap in agreement; they complete together with the same bytes |
| NonArqRuns.RunsAgree | src/non_arq.py:86-118 | On any in-range segments, in any order, with duplicates and overlaps, over any number of completions, both trackers deliver the same bytes at the same segments |
| NonArqRuns.DeliveredWhenWhole | src/non_arq.py:488-539 | A C_PDU is delivered at exactly the segment with which its last missing byte arrives |
| NonArqRuns.WholeIffAll | src/non_arq.py:148-170 | With the segments of one C_PDU, every byte has arrived exactly when every segment has |
| NonArqRuns.AnyOrder | src/non_arq.py:148-170 | Segments of a C_PDU in any order and repeated are delivered by both trackers as the original, with the arrival that completes the set |
| NonArqRuns.BuildSegmentsLoop | src/non_arq.py:148-170 | The segmentation loop gives the specified segments |
| NonArqBurst.EotNeverGrows | src/non_arq.py:453-481 | Later segments never announce more remaining time than earlier ones |
| NonArqBurst.OneCoveredIff | src/non_arq.py:427-481 | The estimated time of one D_PDU covers its exact airtime if and only if the division drops no more than the margin of 19 bytes less the addresses |
| NonArqBurst.EotCoversIff | src/non_arq.py:427-481 | At any rate a field that was not clamped covers the exact airtime of the encoded burst from its own D_PDU on if and only if the divisions drop no more than the margins of those D_PDUs and the rounding up to half seconds |
| NonArqBurst.EotCoversAirtime | src/non_arq.py:427-481 | Every field that was not clamped covers that airtime when the rate exceeds the margin of one D_PDU by at most a common divisor of the rate and 8000 |
| NonArqBurst.RateBoundNeeded | src/non_arq.py:427-481 | A burst at 200000 bit/s whose announced time is too short |
| NonArqBurst.WireLength | src/dpdu_frame.py:361-406 | The exact length of an encoded non-ARQ D_PDU |
| NonArqBurst.BurstIsSegments | src/non_arq.py:431-481 | The D_PDUs of a burst, encoded and decoded, are the segments of the C_PDU |
| NonArqBurst.BuildableIff | src/non_arq.py:431-486 | A burst can be built exactly when the piece size and the rate are positive, both addresses fit 28 bits, the payload has 1 to 65535 octets, the window fits 16 bits, and no piece exceeds 1023 octets |
| NonArqBurst.BurstFields | src/non_arq.py:431-486 | Type, shortest addresses, window, position, size, group flag, id and data of every D_PDU of a burst |
| NonArqBurst.BuildBurst | src/non_arq.py:431-481 | Building succeeds exactly for valid requests, and gives the specified frames |
| NonArqEngine.NonArqReassembler.AcceptSegment | src/non_arq.py:86-118 | A segment goes to the entry of its id, opened on demand; a completed entry is removed |
| NonArqEngine.NonArqReassembler.PurgeExpired | src/non_arq.py:120-131 | Exactly the entries older than the window are dropped |
| NonArqEngine.NonArqReceiver.ProcessDpdu | src/non_arq.py:404-417 | A D_PDU updates the channel reservation and is taken in when it is for this node |
| NonArqEngine.NonArqReceiver.ProcessNonArqDpdu | src/non_arq.py:488-539 | A D_PDU opens, extends or completes the assembly of its source and id |
| NonArqEngine.NonArqReceiver.ExpirePartialReassemblies | src/non_arq.py:541-571 | Exactly the assemblies whose deadline has passed are dropped, with one partial delivery each, or none in error-free mode |
| NonArqEngine.ReceiverIsTracker | src/non_arq.py:488-539 | For the D_PDUs of one C_PDU the receiver is the bitmap tracker, whatever other assemblies it holds |
| NonArqEngine.BurstDelivered | src/non_arq.py:431-539 | The frames of a burst, in any order and repeated, are delivered as the original C_PDU with the arrival that completes the set, and as nothing before |
| NonArqExpiry.ExpiresAtLatest | src/non_arq.py:488-539 | As long as its D_PDUs do not complete it, an assembly expires at the latest end that any of them has announced, keeps the type and destination of the first, and leaves every other assembly alone |
| NonArqExpiry.CompletedSays | src/non_arq.py:512-539 | A completed delivery names its source and id, the type and destination of its first D_PDU and its own size, and frees exactly its assembly |
| NonArqExpiry.PartialSays | src/non_arq.py:541-571 | An assembly that runs out of time delivers exactly the bytes received, in order, marked as incomplete |
| Expedited.RepeatHarmlessIff | src/expedited_arq.py:224-280 | Receiving the segment just received again changes nothing exactly when it is the first or the last of a longer C_PDU |
| Expedited.SegmentSizes | src/expedited_arq.py:115-144 | A C_PDU is cut into as few segments of 1023 octets as hold it; only the last one can be shorter |
| Expedited.ExpeditedEngine.SubmitCpdu | src/expedited_arq.py:108-113 | A C_PDU joins the queue; an empty one is ignored |
| Expedited.ExpeditedEngine.SegmentCpdu | src/expedited_arq.py:115-144 | The loop gives segments with consecutive numbers under the current id |
| Expedited.ExpeditedEngine.ProcessTxSingle | src/expedited_arq.py:169-222 | One round: the ACK, a retransmission or give-up, or the next segment |
| Expedited.ExpeditedEngine.ProcessTx | src/expedited_arq.py:160-167 | The ACK that is due and at most one data frame; it terminates |
| Expedited.ExpeditedEngine.ProcessRxData | src/expedited_arq.py:224-280 | A segment with a bad check is ignored; any other starts, extends or ends a C_PDU, or is an orphan, and is acknowledged |
| Expedited.ExpeditedEngine.ProcessRxAck | src/expedited_arq.py:282-306 | An ACK of the number in flight ends the wait, moves the numbers, and changes the id after the last segment |
| ExpeditedLink.NumbersInStep | src/expedited_arq.py:115-222 | In every reachable state the segment in flight carries `tx_frame_seq`, those behind it the consecutive next numbers under the same id, and `tx_frame_seq` counts all segments acknowledged or passed over, so a give-up skips exactly the numbers it abandons |
| ExpeditedLink.DeliveredExactly | src/expedited_arq.py:115-306 | The deliveries are, in order and without repetition, exactly the C_PDUs all of whose segments arrived |
| ExpeditedLink.RepeatedDelivery | src/expedited_arq.py:224-280 | A retransmission of a C_PDU of one segment delivers it twice |
| ExpeditedLimit.MixedDelivery | src/expedited_arq.py:115-306 | For any two C_PDUs of two segments with any fifteen of 254 segments between them a run that delivers the first part of one joined to the last part of the other |
| ExpeditedLimit.BoundIsTight | src/expedited_arq.py:115-306 | A run with 255 segments passed over in a row that delivers something nobody submitted |
| ExpeditedAir.SentInTime | src/expedited_arq.py:169-222 | In every reachable state a round before the timeout of the segment in flight changes nothing, a later one puts it on the air once more until it has been sent 1 + `max_retries` times, and only then gives it up; no segment goes on the air again otherwise |
| ExpeditedAir.CanStillSucceed | src/expedited_arq.py:160-306 | From every reachable state one round when it is due, the arrival of the frame and of its answer acknowledge the segment in flight, or the next one |
| Cas.RoundTrip | src/cas.py:56-109 | Every C_PDU with a 4-bit reason survives the wire in both modes |
| Cas.StrictIff | src/cas.py:70-109 | Strict decoding accepts a control C_PDU exactly when lenient decoding does and its first byte re-encodes to itself; DATA and trailing bytes are never checked |
| Cas.LenientIsStrict | src/cas.py:70-109 | Lenient decoding of any bytes is strict decoding with the spare bits of the first byte cleared |
| WireLayout.CpduLayout | src/cas.py:56-68 | Every control message bit by bit |
| CasProof.OneCalling | src/cas.py:275-330 | In every reachable state at most one link is being called, and it is the primary one |
| CasProof.CalledCapacity | src/cas.py:524-609 | Links that remote nodes opened never exceed the configured numbers |
| CasProof.NeverCallsCapacity | src/cas.py:524-609 | A node that never calls holds at most 2 Exclusive and `max_nonexclusive_links` Nonexclusive links |
| CasLimits.BeyondIff | src/cas.py:379-609 | From a state within the limit of a kind of links a step goes beyond it if and only if it is the acceptance of a call of that kind that this node made although the limit was reached |
| CasLimits.WithinIff | src/cas.py:275-609 | A run stays within the limit of a kind at every moment if and only if none of its steps is such an acceptance |
| CasLimits.CallingExceeds | src/cas.py:275-448 | For every number and kind, that many accepted calls of a node's own leave that many links made |
| CasBounds.BoundedRetries | src/cas.py:450-498 | In every run a call or break has put out at most 1 + `max_retries` control C_PDUs, one more than its expiries |
| CasBounds.LastExpiryEnds | src/cas.py:450-498 | The expiry after `max_retries` others ends the call or break |
| CasSteps.AcceptedIff | src/cas.py:524-613 | A request is answered once, and with LINK_ACCEPTED exactly when incoming links are allowed, the node is not busy, and the link is made already or fits; otherwise no link changes |
| CasSteps.RequestRefused | src/cas.py:524-613 | A refused request gets the reason of the first condition it fails, and nothing else changes |
| CasSteps.RequestAccepted | src/cas.py:524-613 | An accepted request makes exactly its link, and the primary one if there is none |
| CasSteps.ExclusiveStaysAlone | src/cas.py:524-613 | In no run does a received request make a Nonexclusive link while an Exclusive one is being called or made |
| CasSteps.CallRefusedIff | src/cas.py:275-314 | A call is refused exactly when the primary link is pending, or it would be Nonexclusive beside an Exclusive link |
| CasSteps.CallExact | src/cas.py:275-314 | A call starts exactly its link with a fresh timer, makes it the primary one and sends one request |
| CasSteps.BreakExact | src/cas.py:316-330 | A break is refused exactly when its link is not made, and else starts for exactly that link |
| CasSteps.ResetExact | src/cas.py:268-273 | A reset forgets exactly the given link, or else the primary one, and sends nothing |
| CasSteps.AcceptanceExact | src/cas.py:379-448 | An acceptance makes the link that was being called; an Exclusive one breaks every made Nonexclusive link with reason 3 |
| CasSteps.EndingExact | src/cas.py:379-448 | What rejection, break and break confirmation do to their link and to no other |
| CasSteps.DataExact | src/cas.py:379-448 | Received data marks its link as in use and does nothing else |
| CasSteps.ExpiryExact | src/cas.py:450-498 | An expired timer repeats the call or break exactly while retries are left, and ends it otherwise |
| CasSteps.IdleExact | src/cas.py:450-498 | A made link is broken exactly when a remote node opened it and it has been idle too long |
| CasSteps.TickIsLocal | src/cas.py:450-498 | In every reachable state a tick does to every link what its own timer says, whatever the others do |
| CasEngine.CASEngine.Call | src/cas.py:275-314 | A call is refused with the engine unchanged, or starts |
| CasEngine.CASEngine.Break | src/cas.py:316-330 | A break is refused with the engine unchanged, or starts |
| CasEngine.CASEngine.ResetLink | src/cas.py:268-273 | The given link, or the primary one, is forgotten |
| CasEngine.CASEngine.BreakAllNonexclusive | src/cas.py:504-522 | Every made Nonexclusive link starts breaking |
| CasEngine.CASEngine.HandleLinkRequest | src/cas.py:524-613 | A request from a remote node is accepted, repeated, or rejected with its reason |
| CasEngine.CASEngine.ProcessCpdu | src/cas.py:379-448 | Receipt of each kind of control C_PDU |
| CasEngine.CASEngine.TickLinks | src/cas.py:450-498 | The timers of every link, each handled once |
| SisQueue.BestIsFirstMaximal | src/stanag_node.py:1481-1493 | The request chosen is the first one that no other comes before |
| SisProof.Conservation | src/stanag_node.py:423-474 | Over any run every accepted request is exactly one of still queued, handed down once, or rejected once |
| SisProof.AcceptedExactly | src/stanag_node.py:423-474 | Over any run exactly the requests of a bound client with at most 2048 octets and flow switched on are accepted, in the order in which they came |
| SisProof.RefusedFor | src/stanag_node.py:423-474 | A request is refused for the first condition it fails, and then nothing changes |
| SisProof.PurgeExact | src/stanag_node.py:1432-1437 | A purge rejects exactly the requests whose time to die has come and keeps all others, both in order |
| SisProof.RejectPendingExact | src/stanag_node.py:1614-1621 | Losing the link rejects exactly the plain ARQ requests and keeps all others, both in order |
| SisOrder.NoOvertaking | src/stanag_node.py:1443-1493 | In every run in which the clock does not decrease, for every client and priority the requests handed down and then those still queued are a subsequence of the accepted ones in order |
| SisOrder.OrderIff | src/stanag_node.py:1443-1493 | For different requests this order holds at every moment of a run if and only if no dispatch of the run takes from a lane in which a later time stands before an earlier one |
| SisOrder.TakesHeadIff | src/stanag_node.py:1481-1493 | A dispatch takes the request of its lane that was queued first if and only if no other of that lane has an earlier time |
| SisOrder.TakesMaximal | src/stanag_node.py:1481-1493 | No ARQ request in the queue is of higher priority than the one taken, or of the same with a higher rank of its client |
| SisOrder.DispatchExact | src/stanag_node.py:1443-1493 | A dispatch hands down exactly the non-ARQ requests, the expedited ones when the session is active, and one plain ARQ request when the link is made, and keeps all others in order |
| SisOrder.ClockBackOvertakes | src/stanag_node.py:1481-1493 | For any two requests of one client and priority submitted while the clock goes back, the run that hands down the younger and leaves the older |
| SisQueue.SisTransmitQueue.UnidataRequest | src/stanag_node.py:423-474 | A request is refused with its reason, or queued |
| SisQueue.SisTransmitQueue.PurgeExpired | src/stanag_node.py:1432-1437 | Exactly the expired requests are rejected |
| SisQueue.SisTransmitQueue.DispatchTx | src/stanag_node.py:1443-1479 | Non-ARQ requests go down, expedited ones when the session is active, and one ARQ request when the link is made |
| SisQueue.SisTransmitQueue.PickNext | src/stanag_node.py:1481-1493 | The loop finds the request chosen by the specification |
| SisQueue.SisTransmitQueue.RejectAllPending | src/stanag_node.py:1614-1621 | Exactly the plain ARQ requests are rejected |
| IpFragment.FoldsSuffice | src/annex_f/ip_client.py:190-200 | For headers of up to 30 words two folds suffice, and adding the checksum makes the sum all ones |
| IpFragment.SealVerifies | src/annex_f/ip_client.py:179-183 | A header sealed with the computed checksum passes the receiver's test |
| IpFragment.FragmentCorrect | src/annex_f/ip_client.py:148-188 | Every fragment fits the MTU, verifies, states its length, carries a multiple of eight bytes unless it is the last, and holds the bytes that its offset says |
| IpFragment.FragmentsReassemble | src/annex_f/ip_client.py:148-188 | Fragments placed by their offsets, in any order and repeated, give the payload when none is missing |
| IpFragment.LoopEndsIff | src/annex_f/ip_client.py:59-75 | The loop ends exactly when there is nothing to send or the MTU leaves eight bytes after the header |
| IpFragment.LastFlagIff | src/annex_f/ip_client.py:174-178 | The last fragment carries the MF flag of the datagram exactly when that was clear |
| IpFragment.FlagBits | src/annex_f/ip_client.py:174-178 | The flag bits of a fragment: reserved and don't-fragment clear, MF set exactly when it is not the last |
| IpFragment.FragmentIpv4 | src/annex_f/ip_client.py:148-188 | The loop gives the specified fragments |
| IpFragment.IpChecksum | src/annex_f/ip_client.py:190-200 | The loop gives the specified checksum |
| Coss.PackRoundTrip | src/annex_f/coss.py:105-205 | Dense packing loses no character, for any number of them |
| Coss.RepackedIff | src/annex_f/coss.py:105-205 | Unpacked and packed again, octets are the same exactly when only the last pair is short and spare bits are clear |
| WireLayout.PairLayout | src/annex_f/coss.py:105-148 | Where the bits of two or three characters stand in their two octets |
| Coss.ModeRoundTrip | src/annex_f/coss.py:60-102 | Every mode carries exactly its own characters unchanged |
| Coss.NothingLost | src/annex_f/coss.py:213-271 | Over any run of input, ticks and flushes, chunks and residue are the input in order, and every chunk left at the first octet at which it was due |
| CossFlush.ChunkHasReason | src/annex_f/coss.py:213-271 | In every run each chunk left for a reason: it filled the threshold or ended in CR LF, a tick found that no octet had come for the timeout, or it was forced |
| CossFlush.NothingWaitsTooLong | src/annex_f/coss.py:213-271 | In every run what waits, and every proper beginning of a chunk, was not ready to leave; nothing waits after a forced flush or after a tick past the timeout |
| Coss.StreamCarried | src/annex_f/coss.py:337-367 | However the stream was cut into chunks, the other side receives the characters of the whole stream |
| Coss.EncodeDense | src/annex_f/coss.py:105-148 | The packing loop computes the specified octets |
| Coss.DecodeDense | src/annex_f/coss.py:150-205 | The unpacking loop computes the specified characters |
| Coss.FlushBuffer.Feed | src/annex_f/coss.py:236-250 | Octets go in one by one, with a flush at the threshold or after CRLF |
| Coss.FlushBuffer.Tick | src/annex_f/coss.py:252-258 | What waits is flushed when the timeout has passed |
| Coss.FlushBuffer.FlushNow | src/annex_f/coss.py:260-263 | What waits is flushed at once |
| TextProtocol.TextRoundTrip | src/annex_f/text_protocol.py:44-131 | Any text, stuffed and ended by a dot, is read back exactly, and what follows is left |
| TextProtocol.TextChunked | src/annex_f/text_protocol.py:44-70 | Reading what has arrived and later the rest gives the text that reading it at once gives |
| TextProtocol.TextInPieces | src/annex_f/text_protocol.py:44-131 | However the stream is cut, exactly the text that was sent is read |
| TextProtocol.LinesChunked | src/annex_f/text_protocol.py:33-42 | Plain lines do not depend on how the stream is cut |
| TextProtocol.StuffedBack | src/annex_f/text_protocol.py:116-125 | No stuffed line can be taken for the end of the data, and stuffing is undone |
| TextLayout.TextOctets | src/annex_f/text_protocol.py:116-131 | Octet by octet, a text goes out with every dot that begins a line doubled, nothing else changed, and ended by CR LF, a dot and CR LF |
| TextProtocol.TextProtocolParser.Feed | src/annex_f/text_protocol.py:33-42 | Fed bytes give the lines and the residue of parsing old residue and new bytes together |
| TextProtocol.TextProtocolParser.FeedMultiline | src/annex_f/text_protocol.py:44-70 | The lines up to the end of the text, whether it has been reached, and what is left |
| Rcop.RoundTrip | src/annex_f/rcop.py:51-99 | Every PDU within its field ranges survives the wire |
| Rcop.ReencodedIff | src/annex_f/rcop.py:72-99 | A decoded PDU encodes to the same bytes exactly when its reserved bits were clear |
| WireLayout.SegmentLayout | src/annex_f/rcop.py:72-77 | A segment bit by bit |
| Rcop.BuildSegments | src/annex_f/rcop.py:227-242 | Segmentation fails exactly for fields out of range or above 65535 segments, and else gives PDUs that decode to the segments in order |
| Rcop.HandedIff | src/annex_f/rcop.py:131-162 | Segments in any order and repeated: the message is handed over exactly when its short last segment arrives after all the others |
| Rcop.MultipleNeverArrives | src/annex_f/rcop.py:131-162 | A message whose length is a positive multiple of the segment size is never handed over |
| Rcop.WholeIff | src/annex_f/rcop.py:153-155 | Counting the segments against the largest number tells whether any is missing |
| Rcop.Reassembly.Feed | src/annex_f/rcop.py:131-162 | One segment: stored, or the message that it completes, which is then forgotten |
| Rcop.Reassembly.PurgeExpired | src/annex_f/rcop.py:164-175 | Exactly the messages without news for longer than the timeout are dropped |

## Left out

- FULL RESET and WIN-RESYNC (`src/arq.py:758-900`): a responder resets again on every duplicate command, so no end-to-end
  claim survives them; a run of `ArqLink` contains none.
- ARQ window sizes other than 128, `_tx_uwe`, `_last_reported_lwe`, `has_pending_tx` and the clearing of delivered lists:
  they do not influence what is sent or delivered.
- The acknowledgement part of a DATA_ACK D_PDU: the engine does not read it.
- ArqLink.DeliveryIsPrefix: says nothing about progress; with unlimited loss nothing need be delivered.
- Modem110d.WindowDelivered: assumes that TCP loses nothing and that no error report arrives.
- NonArqEngine.NonArqReceiver.ExpirePartialReassemblies: does not fix the order among partial deliveries, which is the
  insertion order of the assemblies.
- NonArqEngine.NonArqReceiver: assemblies are values in the map; only the byte loop works on arrays.
- Management frames with a bad header check are lost frames; `reps_remaining` is never read by the program.
- The queue of non-ARQ requests and its deferral while the channel is reserved: one comparison and two lists.
- Waits, threads, sockets, keep-alive, reconnection and the handshake of the modem adapter: `TransmitWindow` takes their
  outcomes as parameters.
- CAS data transfer (`send_data`), the event log and warnings.
- SIS hard and soft link management, S_PDU encoding, expedited request limits; link state is an input of `DispatchTx`.
- The don't-fragment bit of IPv4: the code does not look at it, and clears it in every fragment.
- TextProtocol.TextProtocolParser.Feed: lines are the UTF-8 bytes of the text; the replacement of malformed bytes is not
  modelled.
- TextProtocol.TextProtocolParser.FeedMultiline: as for `Feed`, lines are bytes.
- ModemReceiver.Receiver.DispatchPacket: leaves out the effects of status, carrier and setup packets.
- Rcop.Reassembly.PurgeExpired: returns the keys as a set; their order is not modelled.
- RCOP application handlers and id allocation.
- `src/dts_state.py`, `src/eow.py`, `src/drc.py`, S-primitive codecs, BFTP, CFTP, Ethernet, U_PDU, HMTP, POP3, orderwire
  and user interface: tables, field packing or session glue.
