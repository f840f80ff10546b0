# SMA wire protocol: model and proofs

A Dafny model of the wire stack of a reader for SMA solar inverters. Three protocols lie on top of
each other, and each is modelled with the buffers, cursors and counters the program has:

- **Smanet** frames payloads like HDLC (RFC 1662): byte stuffing, a 16-bit frame check sequence, and
  a reader that rebuilds frames from packets that cut the byte stream anywhere.
- **Smabluetooth** puts an 18-byte header in front of every payload, takes part in a connection
  handshake, and queues data packets between the thread that receives them and the caller.
- **Smadata2plus** asks inverters for values and archives: a 24-byte packet header, numbered
  transactions, and conversations of several packets.

The main results:

- *Chunk independence.* The reader, with its buffer that is carried over between calls, its kept last
  byte and its index that wraps below zero, returns on every stream what a one-pass decoder of the
  whole stream finds (`Smanet.Smanet.Read`, `Session.ReadSession`). It sees the stream as it is exactly
  when no packet that is a single escape comes into a used-up buffer with bytes behind it
  (`Fetch.SeenIsStreamIff`). What successive calls return otherwise is computed by a loop on values that
  carries the buffer, its second byte and the packets from call to call (`Walking.WalkIsScan`,
  `Session.ReadSeen`). A frame such an escape disturbs is still accepted exactly when the checksum is
  confused at that place, which it never is at the start (`StaleByte.ReadDisturbed`);
  `StaleByte.ReadsWrongPayload` is a call that returns a payload nobody sent.
- *Damage.* Any bytes in place of any number of frames leave the frames in front of them and those
  behind them as they are, except that the first frame behind them is lost when they end in an odd
  number of escapes (`Damage.DamageBetween`).
- *The checksum.* The table-driven loop is the bit-serial register; it is linear and reversible.
  `validateFrame` accepts a frame exactly when its last two bytes are the complement of the checksum
  of the rest, and every damage within 16 bits, or of an odd number of bits, is noticed
  (`Fcs.ExactAcceptance`, `Fcs.BurstDetected`, `Fcs.OddDamageDetected`, `FcsLinear.ChecksumLinear`).
- *What can be sent.* The checksum goes out without stuffing. A payload is read back exactly when
  neither of its checksum bytes is a flag or an escape; of a whole session of writes and reads exactly
  these payloads arrive, in order, and every other one costs only itself (`Session.ReadBackIff`,
  `Session.SendSession`; `Session.UnsendablePayload` is a payload that cannot be sent).
- *Handshake and queue.* For every interleaving of the receiving thread and the caller: the state only
  moves along the handshake, a connection implies the three packets in order, accepted fields stay,
  and the queue loses a packet exactly when one arrives while forty are unread. The methods of the
  connection are steps of this machine (`Smabluetooth.ConnectionSafe`).
- *Full stack.* A packet leaves through all three layers (`FullStack.Send`), the framing layer keeps the
  contract the top layer relies on (`FullStack.ReadAsPort`), and a conversation of any number of packets
  comes out of the top layer, however their frames are cut into Bluetooth packets and these into reads
  and in whichever order the two threads take their turns (`Conversation.Receive`).
- *Transactions.* On every exit of logout, discovery, authentication, time synchronisation and archive
  reads no transaction is open, every packet carries the counter of its transaction, and no counter
  comes back within 32768 transactions. Two packets of ours carry the same counter exactly when the
  numbers of transactions finished before them agree modulo 32768. What is sent is given byte by byte,
  down to the exact deviation for which the clock is set (`Smadata2plus.PacketBytes`,
  `Transactions.SyncTime`, `Connecting.Connect`).
- *Archives and yields.* What an archive read returns is described completely, from the bytes of the
  packets to the records in the caller's vector (`ArchiveBytes.ReadDaysArchive`,
  `ArchiveBytes.ReadEventsArchive`), with the exact condition under which records are lost; day yields
  are dated, and sum up to the growth of the total over every stretch without a gap.

The files follow the layers: `FcsTable`, `Register`, `Crc`, `Fcs`, `FcsLinear` (checksum), `Hdlc`,
`Fetch`, `Walking`, `Smanet`, `Session`, `Damage`, `StaleByte` (framing), `Bytes`, `BtFraming`,
`Handshake`, `Smabluetooth` (Bluetooth), `ByteOrder`, `Smadata2plus`, `Transactions`, `Connecting`,
`Archive`, `ArchiveBytes`, `DayYield`, `ChannelRecords` (top layer), `FullStack` and `Conversation` (all
of them), and `Common`. `dafny verify dfyconfig.toml` checks the whole project.

Two conventions. A class in the model has the fields of the class in the program; its ghost fields
(`begun`, `log`, `heard` of `Smadata2plus.Smadata2plus`, `run` and `steps` of
`Smabluetooth.Smabluetooth`) record what happened and are tied to the real ones by `Valid()`. Long
functions of the program are cut into several methods, each with the state it leaves behind in its
contract, so that one contract is enough to use it.

Where the code and its comments differ, the code is followed. Four departures have their exact
condition:

- `Smadata2plus::readRecords` has its transaction commented out, so requests for current values are sent
  outside of any transaction: two of them in a row carry the same counter, and so does the transaction
  that follows (`Smadata2plus.SharedCounterIff`, `ChannelRecords.AskTwice`).
- A failed attempt at discovery leaves its devices in the list. A discovery that works lists as many
  devices as it was asked for exactly when no payload was delivered before a failure; otherwise a device
  can be in the list twice (`Connecting.DiscoverRetrying`, `Connecting.ListedTwice`).
- The length of one archive packet is the limit for the next. No record is lost exactly when there was
  room for all of them; otherwise a read that works can come back empty (`Archive.AllTakenIffRoomy`,
  `Archive.ReadGrowingArchive`).
- Objects from 0x8000 on are never recognised in an answer, because the requested one is passed as a
  signed number (`ChannelRecords.ObjectFoundIff`).

## Model

| member | source | states |
|---|---|---|
| FcsTable.TableIsBitSerial | src/smanet.cpp:41-70 | every entry of the table is eight steps of the bit-serial register with polynomial 0x8408 |
| FcsTable.TableStepIsBitSerial | src/smanet.cpp:75 | one round of the loop is eight bit-serial steps, for every register and byte |
| Crc.FeedLinear | src/smanet.cpp:72-78 | the bit-serial register is linear in state and input |
| Crc.BitStepReversible | src/smanet.cpp:72-78 | every bit step can be undone |
| Crc.FeedInjective | src/smanet.cpp:72-78 | different states stay different under the same input |
| Crc.ShortInputsInjective | src/smanet.cpp:72-78 | different inputs of at most 16 bits lead to different states |
| Crc.BurstChangesChecksum | src/smanet.cpp:72-78 | inputs that differ only within 16 bits lead to different states |
| Crc.OddDamageChangesChecksum | src/smanet.cpp:72-78 | inputs that differ in an odd number of bits lead to different states |
| Fcs.FcsCalc | src/smanet.cpp:72-78 | the loop over a buffer computes the bit-serial checksum of its bytes |
| Fcs.OverConcat | src/smanet.cpp:213-214 | the checksum over header and payload can be computed one after the other |
| Fcs.OverIsFeed | src/smanet.cpp:72-78 | the checksum of a buffer is the state the register reaches on its bits |
| Fcs.SameChecksumIff | src/smanet.cpp:72-78 | two buffers have the same checksum exactly when their bits lead to the same state |
| Fcs.ValidateFrame | src/smanet.cpp:106-117 | refuses frames shorter than two bytes or longer than 528, and otherwise accepts those with the good residue |
| Fcs.ResidueOfComplement | src/smanet.cpp:36-37 | appending the complement of the checksum always leads to residue 0xf0b8 |
| Fcs.ResidueOnlyOfComplement | src/smanet.cpp:36-37 | no other two bytes lead to residue 0xf0b8 |
| Fcs.ExactAcceptance | src/smanet.cpp:106-117 | a frame of 2 to 528 bytes is accepted exactly when its last two bytes are the complement, low byte first, of the checksum of the rest |
| Fcs.BurstDetected | src/smanet.cpp:106-117 | an accepted frame that is changed only within 16 neighbouring bits is refused |
| Fcs.OddDamageDetected | src/smanet.cpp:106-117 | an accepted frame that is changed in an odd number of bits is refused |
| Fcs.AdjacentBytesDetected | src/smanet.cpp:106-117 | an accepted frame that is changed only in two neighbouring bytes is refused |
| FcsLinear.ChecksumLinear | src/smanet.cpp:72-78 | the checksum of the sum of two buffers, started with the sum of two states, is the sum of the checksums |
| Hdlc.SpecialBytes | src/smanet.cpp:80-104 | the character map selects 0x11 to 0x13 and nothing else; with flag and escape these are the bytes that get stuffed |
| Hdlc.PutStuffed | src/smanet.cpp:86-100 | one round of the stuffing loop appends the byte or its escaped pair |
| Hdlc.AddHdlc | src/smanet.cpp:80-104 | the loop appends the stuffed form of the input and leaves what was there before |
| Hdlc.StuffLength | src/smanet.cpp:80-104 | stuffing adds one byte for every special one |
| Hdlc.StuffIsClean | src/smanet.cpp:80-104 | stuffed bytes contain no flag and no mapped byte, and every escape is followed by a harmless byte |
| Hdlc.UnescapeStuff | src/smanet.cpp:80-104 | unescaping inverts stuffing |
| Hdlc.StuffInjective | src/smanet.cpp:80-104 | different payloads are stuffed differently |
| Hdlc.FrameEndsAtFlag | src/smanet.cpp:161-173 | a frame ends at a flag that stays in the stream, and uses up at least one byte |
| Hdlc.ScanBody | src/smanet.cpp:136-178 | a body of valid size between flags is one frame |
| Fetch.SeenIsStreamIff | src/smanet.cpp:136-160 | the reader sees the stream itself exactly when no single escape is fetched into a used-up buffer with bytes behind it |
| Fetch.CalmIsServed | src/smanet.cpp:136-160 | packets of which none is a single escape are always seen as they are |
| Fetch.EscapeBehindKept | src/smanet.cpp:143-146 | behind a byte that is kept a single escape does no harm |
| Fetch.EscapeBehindSingleByte | src/smanet.cpp:138-149 | behind a packet of a single byte it does, although that byte is an ordinary one |
| Walking.WalkIsScan | src/smanet.cpp:136-183 | the loop over buffer and packets, on values, finds what the one-pass decoder finds at the front of the stream as it is seen, and leaves what the decoder leaves, seen from the buffer, second byte and packets it has then |
| Walking.WalkLeaves | src/smanet.cpp:136-183 | what it leaves of buffer and packets is no more than there was, shorter after a frame, and seen as it is if the stream was |
| Smanet.Smanet.FillEmpty | src/smanet.cpp:140-141 | an empty buffer takes the next packet |
| Smanet.Smanet.FillBehindLast | src/smanet.cpp:143-146 | the last byte moves to the front and the next packet follows it |
| Smanet.Smanet.Refill | src/smanet.cpp:137-149 | refilling changes nothing of the stream as it is seen |
| Smanet.Smanet.SkipFlags | src/smanet.cpp:162-166 | skips a run of flags to its end |
| Smanet.Smanet.TakeByte | src/smanet.cpp:156-177 | one round uses up an escape pair, a byte, a run of flags, or stops at a closing flag |
| Smanet.Smanet.MoveDown | src/smanet.cpp:169-170 | the bytes from the closing flag on become the buffer, and its second byte with them if there are two |
| Smanet.Smanet.Collect | src/smanet.cpp:136-183 | the loop collects the next frame of the stream as it is seen and stops at its closing flag; index and size stay in range |
| Smanet.Deliver | src/smanet.cpp:185-197 | a good frame is handed over without its four bytes in front and two behind, up to the caller's room; a bad one changes nothing |
| Smanet.StopIsDecoded | src/smanet.cpp:136-183 | how a call stops is what the one-pass decoder says about the stream as it is seen, and about the stream itself if that is what is seen |
| Smanet.Smanet.Read | src/smanet.cpp:126-197 | one call returns what the one-pass decoder finds at the front of the stream as it is seen, and leaves buffer, second byte and packets for the next call as the loop on values does; if the stream is seen as it is, it leaves pending what the decoder leaves, however the packets cut it |
| Smanet.Checksum | src/smanet.cpp:213-215 | the complement of the checksum over header and payload |
| Smanet.Smanet.Write | src/smanet.cpp:199-225 | sends flag, header, stuffed payload, checksum and flag as one packet, or fails and sends nothing |
| Session.PlainFrameReadBack | src/smanet.cpp:199-225 | a written frame with plain checksum bytes is read back unchanged up to its closing flag |
| Session.ReadBackIff | src/smanet.cpp:220-221 | a written payload is read back exactly when neither checksum byte is a flag or an escape |
| Session.SpoiledFrame | src/smanet.cpp:220-221 | a frame with a flag or an escape in its checksum is thrown away and leaves at most one stray byte before the next frame |
| Session.SessionDelivers | src/smanet.cpp:126-225 | of a session exactly the payloads with plain checksum bytes arrive, unchanged and in order |
| Session.WalkResultsAreResults | src/smanet.cpp:126-197 | over successive calls the loop on values yields the results of the one-pass decoder over the whole stream, if that is what is seen |
| Session.ReadOne | src/smanet.cpp:126-197 | one call with room for every frame returns the first of the results still to come, and leaves the others to come |
| Session.ReadSeen | src/smanet.cpp:126-197 | for any packets of 1 to 254 bytes successive calls return the results of the stream as they see it, in order |
| Session.ReadSession | src/smanet.cpp:126-197 | successive calls return the results of the one-pass decoder in order |
| Session.WriteOne | src/smanet.cpp:199-225 | one write sends the frame of its payload if it fits a packet |
| Session.WriteAll | src/smanet.cpp:199-225 | successive writes send the frames of the payloads that fit a packet, in order |
| Session.SendSession | src/smanet.cpp:126-225 | of payloads written one by one, their frames cut into packets anew, successive reads return exactly those that fit a packet and have plain checksum bytes, unchanged and in order |
| Session.ShortFrameUnderflows | src/smanet.cpp:190-194 | there is a frame of four bytes that is accepted, for which the length computation underflows |
| Session.UnsendablePayload | src/smanet.cpp:220-221 | the payload of the single byte 0x17 cannot be sent: its checksum contains a flag |
| Damage.ResultsOfWire | src/smanet.cpp:126-197 | frames between flags are read one by one, each judged by itself |
| Damage.IntactInFront | src/smanet.cpp:126-197 | so they are whatever comes behind them |
| Damage.DamageCostsOneResult | src/smanet.cpp:161-188 | damage inside one frame that leaves flags and escapes in order changes only the result of that frame |
| Damage.GoesOn | src/smanet.cpp:136-178 | behind any bytes a stream is read as behind the results they yield, the frame they leave open and the escape they may leave over |
| Damage.DanglingIff | src/smanet.cpp:156-160 | they leave an escape over exactly when they end in an odd number of escapes |
| Damage.AnyDamage | src/smanet.cpp:126-197 | any bytes in front of intact frames yield at most one result more than they hold flags; of the frames behind them the first is lost exactly when the bytes end in an odd number of escapes, and all others come out as they are |
| Damage.DamageBetween | src/smanet.cpp:126-197 | the same with intact frames in front, which come out as they are too |
| Damage.ShortHolds | src/smanet.cpp:136 | damage that fits the frame buffer together with the frame behind it never outgrows it |
| StaleByte.StillGoodIff | src/smanet.cpp:156-188 | a good frame in which a single escaped byte is replaced by a stale byte and the plain one is still good exactly if the checksum register, in the state it has in front of them, comes out the same for both |
| StaleByte.NeverConfusedAtStart | src/smanet.cpp:156-188 | at the start of a frame it never does |
| StaleByte.ReadDisturbed | src/smanet.cpp:126-197 | a call that gets a single escape into a used-up buffer finds the frame that was sent with one byte too many; if that frame was good, it is handed over exactly under this condition, and otherwise, always for an escape at its start, the call returns -1 and changes nothing |
| StaleByte.ReadsWrongPayload | src/smanet.cpp:126-197 | a new reader gets the frame written for the payload 13 91 7e 11 80 in three packets and returns the six bytes 13 91 7e df 31 80 |
| BtFraming.WrittenHeader | src/smabluetooth.cpp:370-379 | byte by byte: 7e, length and 18, 00, their xor, own address, destination, command, 00 |
| BtFraming.ParseWritten | src/smabluetooth.cpp:46-68 | parsing a written header returns length, addresses and command |
| BtFraming.AcceptedIsWritten | src/smabluetooth.cpp:46-68 | an accepted header is the written one with its fields, except for the third byte, which only the check depends on, and the last |
| BtFraming.HeaderDamageDetected | src/smabluetooth.cpp:51 | changing one of the four checked bytes makes the header bad |
| BtFraming.ReadMore | src/smabluetooth.cpp:206-224 | one more read continues the bytes that have come |
| BtFraming.ReadCompleteLen | src/smabluetooth.cpp:206-224 | returns the full length with exactly the next bytes of the stream, or 0 without having read anything, or -1; on a stream that keeps coming it returns the full length |
| BtFraming.PutHeader | src/smabluetooth.cpp:370-379 | builds the header in the buffer |
| BtFraming.WritePacket | src/smabluetooth.cpp:358-391 | writes header and payload if they fit and the connection takes them, and nothing otherwise |
| BtFraming.ReceivePacket | src/smabluetooth.cpp:232-247 | one round of the worker reads exactly the packet at the front of the stream |
| BtFraming.ReceiveAll | src/smabluetooth.cpp:226-274 | written packets with payload come out in order and unchanged, with the writer's address as source, however the stream delivers their bytes |
| Smabluetooth.Smabluetooth.Cmd02 | src/smabluetooth.cpp:70-84 | command 02 is answered only when not connected, and is fatal with a wrong length |
| Smabluetooth.Smabluetooth.SendAnswer | src/smabluetooth.cpp:90-106 | the second half of command 02 is the step of the machine that goes to START if the answer went out to where the packet came from, and to ERROR if not |
| Smabluetooth.Smabluetooth.Cmd0A | src/smabluetooth.cpp:110-129 | command 0A sets both addresses, once, in state START |
| Smabluetooth.Smabluetooth.Cmd05 | src/smabluetooth.cpp:131-160 | command 05 sets the number of devices, once, in state MAC, and is fatal with a wrong length or without devices |
| Smabluetooth.Smabluetooth.StorePacket | src/smabluetooth.cpp:257-262 | a data packet goes to the queue; a full queue loses its oldest one |
| Smabluetooth.Smabluetooth.PacketEvent | src/smabluetooth.cpp:182-201 | a packet changes the fields only as its command and the state allow |
| Smabluetooth.Smabluetooth.Handle | src/smabluetooth.cpp:251-281 | what the worker does with a packet is the receiving step of the machine; a packet goes to the end of the queue, in place of the oldest of forty, exactly if its command is 01 or 08 and it is addressed to us, to six 00 or to six ff |
| Smabluetooth.Smabluetooth.TryConnect | src/smabluetooth.cpp:307-325 | one look at the state is the connecting step of the machine |
| Smabluetooth.Smabluetooth.TakePacket | src/smabluetooth.cpp:422-428 | takes the front packet of the queue, if there is one |
| Smabluetooth.Smabluetooth.WorkerRound | src/smabluetooth.cpp:232-281 | one round of the worker takes the packet at the front of the stream as its next step; under the same condition on its bytes it is queued, the round is that step, and the stream goes on behind it |
| Smabluetooth.Smabluetooth.GiveUp | src/smabluetooth.cpp:278-281 | a broken stream is the failing step of the machine |
| Smabluetooth.Smabluetooth.TimeOut | src/smabluetooth.cpp:317-323 | the timeout of connect is a step of the machine |
| Smabluetooth.Smabluetooth.EnterRead | src/smabluetooth.cpp:415-430 | entering readPacket is a step of the machine: it fails without a connection, and returns the front packet or waits |
| Smabluetooth.Smabluetooth.WakeRead | src/smabluetooth.cpp:422-428 | so is waking up in it |
| Smabluetooth.Smabluetooth.EndRead | src/smabluetooth.cpp:423-425 | so is its timeout |
| Smabluetooth.ConnectionSafe | src/smabluetooth.cpp:226-334 | whenever the mutex is free the queue holds at most 40 packets, those that arrived last, and being connected means a completed handshake with the values the fields have |
| Smabluetooth.ConnectionLosslessIff | src/smabluetooth.cpp:255-264 | what the caller got and what waits is all that came, exactly as long as no packet arrived while forty were unread |
| Handshake.DataQueuedIff | src/smabluetooth.cpp:250-264 | a packet arrives, at the end of the queue, exactly if its command is 01 or 08 and its destination our address, six 00 or six ff; the queue then forgets its oldest packet if there are forty |
| Handshake.CommandTable | src/smabluetooth.cpp:70-160 | every other packet, by command, length, destination and state: what is answered, what brings addresses and device count and where in it they are, what ends the connection, and that all else changes nothing |
| Handshake.StepKeepsInStep | src/smabluetooth.cpp:70-334 | every step of either thread keeps the handshake invariant |
| Handshake.StepKeepsQueued | src/smabluetooth.cpp:255-264 | every step keeps the queue invariant |
| Handshake.RunKeepsInvariants | src/smabluetooth.cpp:226-334 | both invariants hold in every state of every run |
| Handshake.StateMoves | src/smabluetooth.cpp:70-334 | the state moves only along the handshake, to ERROR, or back when connecting fails |
| Handshake.ConnectedIsHandshaken | src/smabluetooth.cpp:299-334 | connected means that a 02 packet of 13 bytes, a 0a packet of 13 bytes and a 05 packet were accepted in this order and addressed to us, and that the addresses and the device count are those in their bytes |
| Handshake.HistoryGrows | src/smabluetooth.cpp:226-334 | nothing accepted, arrived or consumed is ever taken back |
| Handshake.AcceptedFieldsStay | src/smabluetooth.cpp:110-160 | addresses and number of devices stay what they are once accepted |
| Handshake.OutOfOrderIgnored | src/smabluetooth.cpp:70-160 | a well-formed handshake packet changes nothing exactly when it is not for us or not the one expected |
| Handshake.MisshapenIsFatal | src/smabluetooth.cpp:70-160 | a 02 or 05 packet for us of the wrong size ends in ERROR in every state |
| Handshake.DeviceCountPositiveIff | src/smabluetooth.cpp:131-160 | the number of devices is positive exactly when the accepted 05 packet had a payload |
| Handshake.QueueIsRecentArrivals | src/smabluetooth.cpp:255-264 | in every run the queue has at most 40 packets and is what arrived last; the caller got an in-order selection of the rest |
| Handshake.DropsComeFromOverruns | src/smabluetooth.cpp:258-260 | a packet is dropped exactly when one arrives while forty are unread |
| Handshake.OverrunIs | src/smabluetooth.cpp:250-264 | an overrun is such a packet while forty are unread |
| Handshake.LosslessIff | src/smabluetooth.cpp:255-264 | what the caller got and what waits is all that came, exactly as long as no packet arrived while forty were unread |
| ByteOrder.ReadU16 | src/byte.h:90-93 | reading a stored 16-bit number returns it |
| ByteOrder.ReadU32 | src/byte.h:112-122 | reading a stored 32-bit number returns it |
| ByteOrder.ReadU64 | src/byte.h:148-159 | reading a stored 64-bit number returns it |
| ByteOrder.StoreU32 | src/byte.h:210-222 | storing a 32-bit number that was read returns its bytes |
| ByteOrder.StoreU64 | src/byte.h:250-266 | storing a 64-bit number that was read returns its bytes |
| ByteOrder.SignedBack | src/byte.h:395-405 | a signed number stored in 16, 32 or 64 bits is read back as it was |
| ByteOrder.DataWriter.U16le | src/byte.h:305-308 | writes a number behind what is written and leaves the rest of the buffer |
| ByteOrder.DataWriter.U32le | src/byte.h:311-314 | writes a number behind what is written and leaves the rest of the buffer |
| ByteOrder.DataReader.U32le | src/byte.h:383-387 | reads the number at the cursor and moves it behind it |
| Smadata2plus.PacketBytes | src/smadata2plus.cpp:374-425 | every byte of a packet that goes out: length in words of four, control byte, system id and serial of the receiver, flag, 0x0078 and 0x3a8b74b6 of the sender, the flag again or 0 for control byte e8, number, counter and payload |
| Smadata2plus.DecodeEncode | src/smadata2plus.cpp:374-465 | reading a written packet returns control byte, addresses, flag, counter and the payload up to the caller's room; the start mark is guessed from the counter |
| Smadata2plus.PutPacket | src/smadata2plus.cpp:384-420 | builds header and payload in the buffer |
| Smadata2plus.FindIsFirst | src/smadata2plus.cpp:365-372 | devices in front that have another serial can be skipped in the search |
| Smadata2plus.FindIff | src/smadata2plus.cpp:365-372 | the search returns a device exactly if it is in the list with that serial and no device before it has it, and nothing exactly if no device has it |
| Smadata2plus.TargetIs | src/smadata2plus.cpp:388-402 | serial ffffffff means system id ffff and address six ff; any other the system id and address of the first device with it, or nothing if no device has it |
| Smadata2plus.Smadata2plus.FindDevice | src/smadata2plus.cpp:365-372 | the search loop finds the first device with the serial, or none if no device has it |
| Smadata2plus.Smadata2plus.Address | src/smadata2plus.cpp:388-402 | broadcasts go to everybody, other packets to the first device with their serial, and unknown serials nowhere |
| Smadata2plus.Smadata2plus.WriteReplay | src/smadata2plus.cpp:374-425 | the packet goes out once, encoded with the system id of the first device with its serial, to the address of that device, or nothing goes out |
| Smadata2plus.Smadata2plus.Write | src/smadata2plus.cpp:427-429 | the same with the counter of the current transaction, to which the packet is booked |
| Smadata2plus.Smadata2plus.Read | src/smadata2plus.cpp:431-465 | takes the next payload and returns what it says, or fails without one |
| Smadata2plus.IncIsNext | src/smadata2plus.cpp:177-184 | incrementing leads from the counter of each transaction to that of the next, with the wrap from 0xffff to 0x8000 |
| Smadata2plus.CounterRepeats | src/smadata2plus.cpp:177-184 | no counter comes back within 32768 transactions, and each does after 32768 |
| Smadata2plus.CountersTellTransactionsApart | src/smadata2plus.cpp:177-211 | two packets sent in transactions less than 32768 apart carry the same counter on the wire exactly when they belong to the same one |
| Smadata2plus.SharedCounterIff | src/smadata2plus.cpp:427-429 | two packets of ours, sent within transactions or outside, carry the same counter on the wire exactly when the numbers of transactions finished before them agree modulo 32768 |
| Smadata2plus.OutsideCountersShared | src/smadata2plus.cpp:498-526 | packets sent outside of transactions share their counter with each other and with the transaction that follows |
| Smadata2plus.Smadata2plus.Begin | src/smadata2plus.cpp:190-203 | opens the next transaction; the assertion that none is open is its precondition |
| Smadata2plus.Smadata2plus.End | src/smadata2plus.cpp:195-198 | closes the transaction and moves the counter on |
| Smadata2plus.Smadata2plus.Leave | src/smadata2plus.cpp:205-209 | leaving the scope of a transaction leaves none open |
| Transactions.Logout | src/smadata2plus.cpp:551-574 | one transaction with at most one packet, closed on every exit |
| Transactions.LogoutIs | src/smadata2plus.cpp:551-567 | control byte, flag and words of the logout |
| Transactions.ReadAnswers | src/smadata2plus.cpp:687-690 | works exactly when that many packets arrive; each is read with the room the one before it filled |
| Transactions.PasswordIs | src/smadata2plus.cpp:608-637 | the five words of the login, and the twelve characters of the password, each xor 88, filled up with 88 |
| Transactions.AckIs | src/smadata2plus.cpp:642-664 | control byte, flag and words of the acknowledgement of a single device |
| Transactions.AuthenticatedIsLoggedIn | src/smadata2plus.cpp:672-714 | a login that works has sent the password to everybody and then, exactly if there is one device, the acknowledgement to it |
| Transactions.Authenticate | src/smadata2plus.cpp:672-714 | one transaction with the password, one answer per device, and an acknowledgement for exactly a single device |
| Transactions.PlanIs | src/smadata2plus.cpp:759-865 | what the 40 bytes of an answer lead to, word by word: acknowledgement, echo, and new time, which is sent exactly if the clock is off by 16 to 299 seconds |
| Transactions.SyncedIsClocked | src/smadata2plus.cpp:716-869 | so what a synchronisation that works has sent: three messages of its own exactly if the clock is off by 16 to 299 seconds and two otherwise, with all their words |
| Transactions.SyncTime | src/smadata2plus.cpp:716-869 | sends question, acknowledgement with the inverter's counter, echo and, exactly if the clock is off by 16 to 299 seconds, the new time, all given word by word, or the first few of them on a failure; each message of its own is one transaction, and no transaction is left open |
| Transactions.EchoReturnsTimes | src/smadata2plus.cpp:812-821 | the echo carries the times, time zone and count of the inverter's answer |
| Transactions.SyncTransactions | src/smadata2plus.cpp:741-866 | a successful synchronisation takes two transactions, or three if it sets the clock; a failed one takes one to three |
| Transactions.ChannelPacket | src/smadata2plus.cpp:470-488 | a request fits one Bluetooth packet: at most 40 bytes of payload, a multiple of four |
| Transactions.ChannelIs | src/smadata2plus.cpp:470-492 | a request is 00 02, the channel, the first index and the last, in this order |
| Transactions.PasswordPacket | src/smadata2plus.cpp:608-637 | so does the password |
| Transactions.Call | src/smadata2plus.cpp:722-740 | so does a message to all devices of up to ten words |
| Transactions.Reply | src/smadata2plus.cpp:645-664 | so does a reply to one device |
| Connecting.ReadDevices | src/smadata2plus.cpp:591-600 | the list grows by the sender of every packet read, up to the first failure: system id from bytes 10 and 11, serial from bytes 12 to 15, and the address the packet came from |
| Connecting.DiscoverDevices | src/smadata2plus.cpp:580-603 | one transaction; if the request goes out the list grows by the senders, as their bytes give them, of all packets up to a failure, also when there is one |
| Connecting.NothingStaleIff | src/smadata2plus.cpp:902-912 | a discovery that works in the end has heard nothing before exactly when nothing was delivered before a failure |
| Connecting.DiscoverRetrying | src/smadata2plus.cpp:902-912 | at most five attempts, whose outcome is computed from the coming payloads and writes; the list grows by what failed attempts heard and by what the last one heard, so by as many devices as were asked for exactly when nothing was delivered before a failure |
| Connecting.ListedTwice | src/smadata2plus.cpp:902-912 | a discovery of two devices that works and lists the first of them twice |
| Connecting.AuthenticateRetrying | src/smadata2plus.cpp:915-925 | at most five attempts, one transaction each, none left open; if it works the last thing sent is the login that worked |
| Connecting.SyncTimeRetrying | src/smadata2plus.cpp:928-938 | at most five attempts, none of which leaves a transaction open; if it works the last thing sent is the synchronisation that worked |
| Connecting.Connect | src/smadata2plus.cpp:898-943 | whichever step fails, no transaction is left open; if it works, the logout was sent first, then requests for the devices, then what logs in, and last what sets the time, each given byte by byte, and the list has grown by as many devices as were asked for exactly when nothing was delivered before a failure of discovery |
| Archive.CheckPacket | src/smadata2plus.cpp:1516-1535 | a packet is good exactly when it is long enough, for the object asked for, and announces entries |
| Archive.CountIs | src/smadata2plus.cpp:1537 | the loop takes as many records as are announced and there |
| Archive.ParseTotalDayData | src/smadata2plus.cpp:1395-1404 | reads time and total of a day |
| Archive.ParseEventData | src/smadata2plus.cpp:1372-1393 | reads the fields of an event |
| Archive.TakeDays | src/smadata2plus.cpp:1516-1544 | takes the wanted days of a good packet in order |
| Archive.TakeEvents | src/smadata2plus.cpp:1457-1485 | takes the wanted events of a good packet in order |
| Archive.ArchivePacket | src/smadata2plus.cpp:1406-1434 | a request for an archive fits one Bluetooth packet |
| Archive.GatherDays | src/smadata2plus.cpp:1510-1546 | the loop gathers the wanted days of good packets up to the one with number 0, and stops at the first that does not arrive or is not good |
| Archive.GatherEvents | src/smadata2plus.cpp:1451-1487 | the same for events |
| Archive.ReadTotalDayData | src/smadata2plus.cpp:1494-1551 | the vector gets the wanted records of all packets up to the one with number 0, or is left alone; it works exactly when all these packets arrive and are good; one transaction, closed on every exit |
| Archive.ReadEventData | src/smadata2plus.cpp:1436-1492 | the same for events |
| Archive.WholeIffShrinking | src/smadata2plus.cpp:459-462 | every packet is taken whole exactly when no payload is longer than the one before it |
| Archive.AllTakenIffRoomy | src/smadata2plus.cpp:459-462 | no record of a packet is lost exactly when there was room for all of them |
| Archive.RoomyArchiveComplete | src/smadata2plus.cpp:1511-1546 | an archive whose packets all had room for their records is read completely |
| Archive.ShrinkingArchiveComplete | src/smadata2plus.cpp:1511-1546 | an archive with payloads that do not grow is read completely |
| Archive.ShrinkingDaysComplete | src/smadata2plus.cpp:1511-1546 | so it is for days |
| Archive.ShrinkingEventsComplete | src/smadata2plus.cpp:1452-1487 | and for events |
| Archive.GrowingArchiveLosesRecords | src/smadata2plus.cpp:459-462 | two packets that make up a complete read, with numbers 1 and 0, whose result is empty although the second holds a day that was asked for |
| Archive.ReadGrowingArchive | src/smadata2plus.cpp:1494-1551 | a call that reads them: it works, and the caller's vector stays empty |
| ArchiveBytes.GoodIff | src/smadata2plus.cpp:1516-1535 | a packet is good exactly when it has twelve bytes, the object asked for in bytes 2 and 3, and a range in bytes 4 to 11 that is positive as a signed number of 32 bits |
| ArchiveBytes.PayloadHolds | src/smadata2plus.cpp:1526-1537 | the payload made of a head and records of equal size holds each record where the loop looks for it |
| ArchiveBytes.DaysTaken | src/smadata2plus.cpp:1537-1544 | of a packet that holds any list of times and totals exactly those are taken whose time is in the range and whose total is not all ones, in order |
| ArchiveBytes.ReadDaysBack | src/smadata2plus.cpp:1516-1544 | so the payload made of any list of days is read back as the days asked for |
| ArchiveBytes.ReadOneDay | src/smadata2plus.cpp:1516-1544 | the payload 00 02 20 70, eight 00, 00 e1 0b 4e 10 27 and six 00 holds the day 1309401344 with total 10000 |
| ArchiveBytes.EventsTaken | src/smadata2plus.cpp:1478-1485 | of a packet that holds any list of events exactly those are taken whose time is in the range, in order |
| ArchiveBytes.ReadEventsBack | src/smadata2plus.cpp:1457-1485 | the payload made of any list of events is read back as the events asked for, field by field |
| ArchiveBytes.ReadOneEvent | src/smadata2plus.cpp:1372-1393 | the fields of the event in the bytes 1 to 48 |
| ArchiveBytes.SeriesIsRead | src/smadata2plus.cpp:1510-1546 | packets whose numbers count down to 0 and whose payloads do not grow are read up to number 0 and no further |
| ArchiveBytes.ReadDaysArchive | src/smadata2plus.cpp:1494-1551 | from the bytes of all packets to the vector of the caller: it holds exactly the days asked for, of all packets and in order |
| ArchiveBytes.ReadEventsArchive | src/smadata2plus.cpp:1436-1492 | the same for events, with object 7010 for users and 7012 for installers |
| ArchiveBytes.ArchiveIs | src/smadata2plus.cpp:1406-1434 | control byte e0, and the request: 00 02, the object, the first time and the last, in this order |
| DayYield.ComputeYields | src/smadata2plus.cpp:1583-1601 | the loop writes one entry per close pair, in order, inside the allocation |
| DayYield.EntryOfSample | src/smadata2plus.cpp:1585-1598 | a sample less than 172800 seconds after the one before has an entry, in its place: dated by the sample, with the growth of the total if that fits into 64 bits with a sign |
| DayYield.YieldsTellAll | src/smadata2plus.cpp:1583-1599 | the result has such an entry for each of these samples and is no longer |
| DayYield.SampleOfEntry | src/smadata2plus.cpp:1583-1599 | there are no other entries |
| DayYield.DifferenceExactIff | src/smadata2plus.cpp:1593 | the difference of two totals is the true one exactly when that fits into 64 bits with a sign |
| DayYield.YieldConserved | src/smadata2plus.cpp:1583-1599 | over a stretch without a gap the yields sum to last total minus first total |
| DayYield.SmallTotalsConserved | src/smadata2plus.cpp:1583-1599 | so they do for all totals below 2 to the 63, as a stretch of the result |
| DayYield.YieldConservedModulo | src/smadata2plus.cpp:1593 | for any totals they do up to a multiple of 2 to the 64 |
| DayYield.ReadTotalsRetrying | src/smadata2plus.cpp:1558-1569 | at most five attempts, of which failed ones leave nothing in the vector |
| DayYield.ReadDayYield | src/smadata2plus.cpp:1553-1602 | asks for the totals of the device and the times given, and returns the number of samples less than 172800 seconds after the one before, with the entry of each, its date and growth, in its place in an array with room for one per sample; none for fewer than two samples |
| ChannelRecords.ParseRecordHeader | src/smadata2plus.cpp:233-240 | reads the fields of a record header |
| ChannelRecords.ParseChannelRecords | src/smadata2plus.cpp:263-317 | refuses answers that are too short, have the wrong start or the wrong object, and otherwise stores the records up to the caller's room |
| ChannelRecords.AsManyAsThereAre | src/smadata2plus.cpp:302 | an answer of whole records yields as many as it holds |
| ChannelRecords.ReadsBeyondIff | src/smadata2plus.cpp:302 | the last record is read beyond the end of the answer exactly when it does not hold whole records |
| ChannelRecords.ObjectFoundIff | src/smadata2plus.cpp:281-286 | an object is recognised exactly when it is the one asked for and below 0x8000 |
| ChannelRecords.AnswersIff | src/smadata2plus.cpp:263-286 | an answer is not refused exactly when it has eight bytes, 01 02 in front, and behind them the object asked for, below 0x8000 |
| ChannelRecords.ParseAnswer | src/smadata2plus.cpp:233-317 | parsing the answer made of any list of records returns the list |
| ChannelRecords.AskRecords | src/smadata2plus.cpp:498-526 | asks outside of any transaction, if the destination is known and the write works, and leaves the counter as it is |
| ChannelRecords.AskTwice | src/smadata2plus.cpp:498-526 | two requests in a row that go out carry the same counter on the wire |
| FullStack.FrameLength | src/smanet.cpp:217-222 | a frame is its payload, one byte per special byte, and eight more |
| FullStack.Send | src/smadata2plus.cpp:374-425 | a packet with at most 40 bytes of payload leaves in a single Bluetooth packet with its whole frame, for everybody or for the first device with its serial, under the address and system id of that device, if there is one and the connection takes it |
| FullStack.ReadAsPort | src/smadata2plus.cpp:439-443 | reading from the framing layer keeps the contract the top layer is modelled on: what the pending bytes deliver is what the coming reads deliver |
| FullStack.ReadPacket | src/smadata2plus.cpp:431-465 | out of any reader that has the frame of a packet pending, whatever follows it, the packet is read back, or lost exactly when a checksum byte is a flag or an escape |
| Conversation.TakeOne | src/smabluetooth.cpp:415-431 | one turn of the reading thread takes the front packet, or waits if there is none |
| Conversation.StoreOne | src/smabluetooth.cpp:226-281 | one turn of the worker stores the packet at the front of the stream |
| Conversation.Gather | src/smabluetooth.cpp:226-431 | all pieces a peer has sent come out of the queue in order, for every order of turns in which fewer than forty packets are waiting when one comes |
| Conversation.ReadJoined | src/smadata2plus.cpp:431-465 | a read of the top layer answers what is decoded from the bytes the framing layer hands over, and both layers expect the same of what follows |
| Conversation.AnswersAreDelivered | src/smadata2plus.cpp:431-465 | as many reads as there are results answer exactly what is delivered, in order |
| Conversation.SpokenIsHeard | src/smadata2plus.cpp:374-465 | reading the frames of any list of packets answers those packets whose checksum bytes are no flag and no escape, in order, with control byte, flag, destination, counter, number and payload |
| Conversation.Receive | src/smadata2plus.cpp:431-465 | the same through all layers, from the byte stream over both threads, for readers in any state between two conversations, which is also the state they are left in |

## Left out

- Smanet.Smanet.Read: for packets that are empty or longer than 254 bytes only memory safety is stated; the layer below sends neither. After a frame that outgrows the buffer it is stated, for a stream that is seen as it is, that bytes are read again, not which; sessions are described up to such a frame.
- Smanet.Deliver: for an accepted frame of four or five bytes the program copies beyond its frame buffer; the model stops at the end of the buffer and states only the returned length.
- StaleByte.ReadDisturbed: one single escape, with no other behind it and an ordinary byte after it; `Session.ReadSeen` covers all others.
- Damage.DamageBetween: damage during which no frame outgrows the buffer.
- Session.SendSession: assumes a protocol whose bytes are no flag and no escape, as those of 0x6560 are; the program sends them unescaped as well.
- Smanet.Smanet.Write: payloads up to 255 bytes, as the assertion in the program demands; a frame above 237 bytes is refused by the layer below.
- Errors of the connection inside `Smanet::read`: the test for a negative result can never hold, because the size is an unsigned byte.
- BtFraming.ReceiveAll: assumes payloads of at least one byte and a stream without timeouts; a timeout after a header is taken for a complete payload by the program.
- `Smabluetooth::read` copies as many bytes as the caller has room for; the model copies those of the packet.
- `Smabluetooth::disconnect` and reconnecting (the program assigns a local variable in place of the field): one session is modelled. The wait in `connect` that joins the worker while holding the mutex can deadlock; a timeout is modelled as a step that ends the worker.
- Signal strength and command 04, which change none of the fields modelled.
- Smabluetooth.Smabluetooth.WorkerRound: one round without a step of the other thread in between; the interleavings are those of the single methods and of the machine.
- Handshake.OutOfOrderIgnored: speaks about well-formed packets; the others are the subject of `Handshake.MisshapenIsFatal`.
- Smadata2plus.Smadata2plus.Read: assumes that the framing layer delivers at least 24 bytes; with fewer the program copies a negative number of bytes. The source address a packet came from is what the layer below reports.
- Smadata2plus.Smadata2plus.WriteReplay: the framing layer below is modelled by what it sends and delivers; `FullStack.ReadAsPort` shows that the reader delivers in this way, and `FullStack.Send` that the packet leaves through all layers.
- Transactions.Authenticate: the comparison of the answers with the password and the mark of authenticated devices are not part of this model; the program follows a null pointer there for a device it does not know.
- Transactions.SyncTime: without any device the program reads beyond its list once a good answer has come; that case is excluded, and no other. The clock is a parameter, and the absolute value of the deviation is exact.
- Connecting.Connect: without any device it is assumed that no payload long enough for an answer about times is to come, so that the case above cannot arise; `Connecting.SyncTimeRetrying` assumes the same.
- Conversation.Receive: the peer's packets hold at most 228 bytes of payload, the pieces are seen as they are (`Fetch.Served`), and the pieces are handed to the framing layer when all of them are there. What a reader that falls behind loses is the subject of `Smabluetooth.ConnectionLosslessIff`.
- Request payloads are built as values, not in a buffer with a cursor; the packet header is built with the cursor.
- ArchiveBytes.ReadDaysArchive: packets whose payloads do not grow and have at most 512 bytes; `Archive.AllTakenIffRoomy` says what is lost of others.
- Archive.ReadTotalDayData: what is left of the coming answers afterwards is not stated.
- DayYield.ReadDayYield: the difference of two times is exact; on 32 bits it would overflow for samples more than 68 years apart. Allocation always succeeds, and the pauses between attempts are left out.
- ChannelRecords.ParseChannelRecords: records of type 3, whose copy is longer than their buffer, are left out. For an answer that is not refused, one of eight to eleven bytes fails an assertion in the program, and the buffer must be long enough for the last record; both are preconditions.
- `parseU64be` and the signed 32 and 64-bit methods of `DataWriter`, which do not do what their names say and are not used.
- Unit conversions, status tables, firmware versions, the tag file, logging, sockets, and the C wrapper.
