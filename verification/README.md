# A model of the DTLS 1.2 client

The repository implements the client side of DTLS 1.2 (RFC 6347) with pre-shared keys. This
project models the part of it that carries state: record numbers and anti-replay windows,
epochs and the change of cipher, the wire codec, record protection, fragment reassembly and
flights, the handshake with its transcript, and the socket that ties them together.
`dafny verify dfyconfig.toml` checks all of it. Nothing was executed.

Code that works by updating objects is modelled by classes with the source's fields
(`AntiReplayWindow`, `ConnectionState`, `Epoch`, `RecordLayer`, `ClientHandshakeHandler`,
`Socket`, the memo of `P`) and by methods with its loops. Each method is tied to a function on
the object's value, and the theorems are about those functions, alone and over whole runs. Pure
code (padding, framing, the AEAD delegates, message bodies) is modelled by functions.

Hashing, HMAC, block ciphers and AEAD are unknown functions in a `Library`. Where a theorem needs
more of them than that they are functions, it asks for one of three laws: an HMAC has the length of
its hash, deciphering inverts enciphering on whole blocks, opening inverts sealing. Random bytes, the
contents of uninitialised buffers and the table of cipher suites are parameters.

How the files build on each other:

- `Words`, `AntiReplay`, `AntiReplayProofs`: the 64-bit window in two 32-bit words.
- `Bytes`, `BitConverter`, `Codec`, `CodecProofs`, `Packets`: numbers, specs, record headers.
- `Crypto`, `Prf`, `Protection`, `ConnectionState`: key derivation and record protection.
- `Records`, `RecordLayer`, `RecordProofs`, `WriteOrder`, `Transfer`, `LayerChanges`,
  `ClearFlights`: the record layer, what it keeps and what arrives at the other side.
- `Fragments`, `FragmentProofs`, `Handshakes`: handshake messages and their fragments.
- `Handlers`, `HandshakeHandler`, `HandlerProofs`, `FlightAssembly`, `Transcripts`, `LayerRuns`:
  the handshake over arbitrary runs.
- `MessageBytes`, `Hellos`: the messages of the handshake byte by byte, as they are read and as they
  are sent.
- `KeyAgreement`, `EpochAgreement`, `Phases`, `Completion`: which keys come about, and when.
- `Sessions`, `SessionProofs`, `SessionLayers`, `Authenticity`: a socket, from datagrams to the data
  handed to the application.
- `HonestServer`, `Sizes`, `HonestHandshake`, `ProtectedTurns`, `Conversation`: a whole handshake on
  the wire with a server that knows the key.
- `Outbound`, `DataExchange`: what a session sends, and that the data of its user arrives.

## Where the code departs from what it sets out to do

The model follows the code. Each departure below is proved, with the exact condition where there is one.

- A window shift of exactly 32 or 64 keeps stale bits, since JavaScript takes shift counts modulo
  32. No received number is lost, but numbers that never arrived can read as received
  (`MarkExactIffClean`, `AlignedJumpInventsANumber`).
- `receive` filters a whole datagram before it marks anything, so that de-duplication holds between
  datagrams and not inside one (`OnceInOneDatagramIff`, `RepeatedInOneDatagram`).
- A number of up to 48 bits is written modulo 2^32, because `>>>=` reduces it (`NumberRoundTrip`).
  `fitToWholeBytes` is right exactly below 2^32 (`FitIsLeastIffBelowTwo32`).
- The comment on `split` promises a series of fragments. The loop stops after the first and emits
  none for an empty body (`SplitRoundTripIff`).
- `isComplete` looks only at the previous end. A cover is missed exactly if in offset order some
  fragment starts more than one byte behind the end of the one directly before it, or the last one
  does not end the message (`CoverIsMissedIff`, `NestedCoverIsMissed`).
- Reading the absent optional vector at the end of a buffer counts length bytes that are not there
  (`RoundTrip`).
- A message that was processed before and comes again in a new record stays stored, and no flight is
  dispatched any more (`BlockedForGood`; `RepeatedHelloVerifyBlocks` has the input). A flight that has
  arrived is dispatched if and only if no such message is stored (`DispatchedIffNotBlocked`).
- `Cipher` and `Decipher` are cached when first read, whatever the keys are later. One plain record of
  epoch 1 that comes before the keys leaves the client without protection for what it receives
  (`EarlyRecordIsRemembered`). The client deciphers with its keys if and only if there was no such
  record; it always enciphers with them (`DelegatesInUse`, `SessionDelegates`).
- Application data that comes in the clear is kept and handed over after the handshake
  (`ClearDataThenHandshake` has the input, with a complete handshake behind it). All data handed over
  was protected if and only if none came in another epoch than 1 and, if there was any, no record of
  epoch 1 came before the keys (`EmittedIsAuthenticIff`).

## Model

| member | source | states |
|---|---|---|
| AntiReplay.AntiReplayWindow.constructor | src/TLS/AntiReplayWindow.ts:15-17 | A new window has two empty words and ceiling 63 |
| AntiReplay.AntiReplayWindow.Reset | src/TLS/AntiReplayWindow.ts:21-27 | Resetting gives the fresh window whatever it was before |
| AntiReplay.AntiReplayWindow.MayReceive | src/TLS/AntiReplayWindow.ts:33-48 | The four-way test agrees with the acceptance rule on the window value |
| AntiReplay.AntiReplayWindow.HasReceived | src/TLS/AntiReplayWindow.ts:54-64 | The bit test with 32-bit words and shift counts modulo 32 agrees with the window value |
| AntiReplay.AntiReplayWindow.MarkAsReceived | src/TLS/AntiReplayWindow.ts:70-101 | The loops over whole blocks and then bits turn the window into its marked value; an index outside the two words is never read back |
| AntiReplay.AntiReplayWindow.ShiftBits | src/TLS/AntiReplayWindow.ts:83-88 | The bitwise loop with its overflow equals the shifted pair of words |
| AntiReplayProofs.ReadsPosition | src/TLS/AntiReplayWindow.ts:54-64 | `hasReceived` of a number in the window reads exactly the bit at its distance from the lower bound |
| AntiReplayProofs.ShiftedAt | src/TLS/AntiReplayWindow.ts:73-88 | Every bit after a shift by any amount: the bit that many places higher, plus the stale bits of amounts 32 and 64 |
| AntiReplayProofs.MarkAt | src/TLS/AntiReplayWindow.ts:70-101 | Exact membership after marking, for every number of the new window and every jump, the two aligned ones included |
| AntiReplayProofs.MarkSpends | src/TLS/AntiReplayWindow.ts:70-101 | Marking spends the number and keeps every spent number spent |
| AntiReplayProofs.MarksSpend | src/TLS/AntiReplayWindow.ts:70-101 | After any run of marks every marked number is spent for good |
| AntiReplayProofs.CeilingIsHighest | src/TLS/AntiReplayWindow.ts:70-92 | Over any run the ceiling is the highest number marked, never below its start |
| AntiReplayProofs.NeverLost | src/TLS/AntiReplayWindow.ts:33-101 | After any run from a fresh window a marked number still in the window reads as received, and no marked number may be received |
| AntiReplayProofs.MarkExactIffClean | src/TLS/AntiReplayWindow.ts:70-101 | If the bitmap equals the received set, then after one mark it does if and only if the jump is not 32 or 64, or copies no misleading bit |
| AntiReplayProofs.MarksExact | src/TLS/AntiReplayWindow.ts:70-101 | Over every run of clean moves the bitmap equals the set of marked numbers on the whole window |
| AntiReplayProofs.CleanRunAccepts | src/TLS/AntiReplayWindow.ts:33-48 | After a clean run `mayReceive` accepts exactly the unmarked numbers from ceiling - 63 to ceiling + 64 |
| AntiReplayProofs.UnalignedRunIsClean | src/TLS/AntiReplayWindow.ts:75-88 | A run with no jump of exactly 32 or 64 is clean |
| AntiReplayProofs.AlignedJumpInventsANumber | src/TLS/AntiReplayWindow.ts:83-88 | After receiving 0 and 95 only, 32 reads as received and is refused |
| BitConverter.NumberToBuffer | src/lib/BitConverter.ts:3-11 | The loop with `& 0xff` and `>>>= 8` writes the big-endian encoding of the value modulo 2^32 |
| BitConverter.BufferToNumber | src/lib/BitConverter.ts:13-20 | The loop computes the big-endian value, or NaN as soon as a byte is missing |
| BitConverter.FitToWholeBytes | src/lib/util.ts:6-14 | The loop computes the number of byte shifts that bring the value to 0, at least 1 |
| BitConverter.NumberRoundTrip | src/lib/BitConverter.ts:3-20 | For every integer, negative ones too, decoding the encoding at any offset gives the value modulo 2^min(size, 32) |
| BitConverter.EncodeAt | src/lib/BitConverter.ts:3-11 | Every byte of an encoding: the highest first, of the value modulo 2^32 |
| BitConverter.EncodeIsIdempotent | src/lib/BitConverter.ts:3-11 | A value and what is left of it on the wire have the same encoding |
| BitConverter.ReencodeValue | src/lib/BitConverter.ts:3-20 | Any bytes are the encoding of their value, which fits their length |
| BitConverter.HighBytesAreZero | src/lib/BitConverter.ts:3-11 | The leading bytes that a value does not need are written as 0 |
| BitConverter.FitIsLeastIffBelowTwo32 | src/lib/util.ts:6-14 | The result is the least n >= 1 with value < 256^n if and only if the value is below 2^32 |
| BitConverter.LengthSurvivesPrefix | src/lib/util.ts:6-14 | A length within its bound is never truncated by a length prefix of the size chosen for the bound |
| Codec.ReadStruct | src/TLS/TLSStruct.ts:39-87 | The loop over the property definitions returns what the parse function of the struct returns, errors included |
| Codec.ReadValue | src/TLS/TLSStruct.ts:46-80 | Parsing one property by its kind agrees with the parse function |
| Codec.ReadVector | src/TLS/Vector.ts:42-85 | Parsing a vector, absent optional ones included, agrees with the parse function |
| Codec.ReadItems | src/TLS/Vector.ts:51-73 | The item loops, which end with an error when an item takes no bytes, agree with the parse function |
| CodecProofs.RoundTrip | src/TLS/TLSStruct.ts:39-135 | Every well-formed value of every nested spec is parsed back from its serialisation at any offset; the bytes read are the bytes written, plus the phantom prefix of an absent optional vector |
| CodecProofs.FieldsRoundTrip | src/TLS/TLSStruct.ts:41-85 | The same for the fields of a struct, of which only the last may be open-ended |
| CodecProofs.ItemsRoundTrip | src/TLS/Vector.ts:51-73 | The same for the items of a vector |
| CodecProofs.ClosedMissesNothing | src/TLS/Vector.ts:42-85 | Only an open-ended spec can count bytes that are not there |
| CodecProofs.ItemsIff | src/TLS/Vector.ts:49-73 | For every item spec, parsing yields exactly the values that lie one behind the other in the announced length, each beginning within it; an item that cannot be parsed or takes no bytes is an error |
| CodecProofs.VectorIff | src/TLS/Vector.ts:42-85 | For every vector spec: the value is the items within the length in front of them, or within the fixed one, and a length that is not there counts as zero; an empty buffer gives an empty optional vector and an error otherwise |
| CodecProofs.SerializeIsInjective | src/TLS/TLSStruct.ts:103-135 | Two different well-formed values of one spec never serialise to the same bytes |
| Packets.MacHeaderPrints | src/DTLS/DTLSCompressed.ts:81-89 | The authenticated header field by field, in order and size |
| Packets.PacketPrints | src/DTLS/DTLSCiphertext.ts:9-16 | A record is printed as type, version, epoch, number, length and fragment, each in its size |
| Packets.MacHeaderSurvivesWire | src/DTLS/DTLSCompressed.ts:66-74 | The MAC header computed from a parsed packet equals the one computed from the packet that was sent, although the codec loses bits of its fields |
| Packets.PacketLength | src/DTLS/DTLSCiphertext.ts:9-16 | A record is 13 bytes longer than its fragment |
| Packets.ReadPacket | src/DTLS/DTLSCiphertext.ts:9-27 | Reading a record from a datagram agrees with the parse function |
| Packets.ParseLayout | src/DTLS/DTLSCiphertext.ts:9-16 | Parsing succeeds if and only if all 13 header bytes are in the buffer; then the fields are at their offsets and the record takes the length it announces |
| Packets.ParsePrinted | src/DTLS/DTLSCiphertext.ts:9-16 | A printed record is recovered, in its wire form and with its length, from any place in a datagram |
| Prfs.Memo.Get | src/TLS/PRF.ts:90-96 | The memoised `A(i)` is the i-fold HMAC of the seed; the memo only grows, to i + 1 entries at most |
| Prfs.ComputeP | src/TLS/PRF.ts:85-111 | The loop over growing hashes ends and returns the expansion |
| Prfs.PIsHmacStream | src/TLS/PRF.ts:85-111 | The expansion has exactly the length asked for, and its bytes are those of HMAC(secret, A(1) + seed), HMAC(secret, A(2) + seed), ... where A(0) is the seed and each A(i + 1) the HMAC of A(i); stated from the HMAC alone |
| Prfs.PrefixOfLongerOutput | src/TLS/PRF.ts:98-109 | A shorter expansion is a prefix of a longer one |
| Prfs.LabelsInAscii | src/TLS/PRF.ts:140-148 | The bytes of the four labels that the handshake uses |
| ConnectionStates.PartitionIsExact | src/TLS/ConnectionState.ts:87-101 | The six keys have the lengths the suite requires and concatenate to the whole key block |
| ConnectionStates.KeyBlockByKind | src/TLS/ConnectionState.ts:79-103 | For each kind of cipher, with the sizes of the hashes in numbers: how long the key block is and at which bytes of it the keys, MAC keys and fixed nonce parts of client and server are |
| ConnectionStates.SecretsAreDerived | src/TLS/ConnectionState.ts:64-103 | The keys can be computed if and only if suite, PRF and both randoms are there; the master secret is 48 bytes from client and server random, and the six keys concatenate to the expansion from server and client random |
| ConnectionStates.ConnectionState.constructor | src/TLS/ConnectionState.ts:34-41 | The defaults: client, NULL suite, DTLS 1.0, nothing negotiated |
| ConnectionStates.ConnectionState.GetCipher | src/TLS/ConnectionState.ts:44-49 | Returns the delegate cached at the first read, or caches one for the present suite and keys; nothing else changes |
| ConnectionStates.ConnectionState.GetDecipher | src/TLS/ConnectionState.ts:51-56 | The same for the other direction |
| ConnectionStates.ConnectionState.ComputeMasterSecret | src/TLS/ConnectionState.ts:64-74 | Sets the master secret expanded from both randoms and the key material; when a parameter is missing it throws and changes nothing |
| ConnectionStates.ConnectionState.ComputeKeyMaterial | src/TLS/ConnectionState.ts:79-103 | Six consecutive reads with a shared offset partition the key block |
| Protection.StripPadding | src/TLS/BlockCipher.ts:145-157 | The checking loop with its early exits agrees with the stripping function |
| Protection.PaddingAccepted | src/TLS/BlockCipher.ts:145-157 | Stripping yields a body if and only if the buffer is that body followed by n + 1 bytes of value n |
| Protection.PaddingAligns | src/TLS/BlockCipher.ts:66-68 | The padding fills the block exactly and its length is below the block size |
| Protection.BlockLayout | src/TLS/BlockCipher.ts:48-97 | What is sent behind the IV: fragment, HMAC of the header field by field and the fragment under the sender's MAC key, and a shortest padding, enciphered with the sender's key |
| Protection.BlockRoundTrip | src/TLS/BlockCipher.ts:48-210 | For every fragment, MAC and block size up to 256, deciphering what was enciphered, in its wire form, gives the packet back |
| Protection.BlockAcceptsIff | src/TLS/BlockCipher.ts:116-210 | A record is accepted if and only if what follows its IV deciphers with the peer's key to a fragment, the HMAC of the header field by field and the fragment under the peer's MAC key, and n + 1 bytes of value n; exactly that fragment is returned |
| Protection.AeadLayout | src/TLS/AEADCipher.ts:101-142 | What is sent: the explicit nonce, ciphertext and tag, sealed with the sender's key under its fixed nonce part and the explicit one, with epoch, number, type, version and plaintext length authenticated |
| Protection.AeadAcceptsIff | src/TLS/AEADCipher.ts:162-204 | A record is accepted if and only if what lies between explicit nonce and tag opens with the peer's key, its fixed nonce part and that header; exactly the plaintext is returned |
| Protection.AeadRoundTrip | src/TLS/AEADCipher.ts:101-202 | For every fragment and tag length the receiver builds the same nonce and additional data and recovers the packet |
| Protection.ProtectionRoundTrip | src/TLS/CipherSuite.ts:220-287 | Whatever the suite, the peer's delegate with the same keys undoes the delegate |
| Records.TableSize | src/DTLS/RecordLayer.ts:113-116 | With epochs 0 up to the next one, the index test on the array of known epochs is a membership test |
| RecordLayers.Epoch.constructor | src/DTLS/RecordLayer.ts:202-209 | A new epoch has a fresh connection state, a fresh window and sequence number -1 |
| RecordLayers.RecordLayer.constructor | src/DTLS/RecordLayer.ts:26-32 | A new record layer has epochs 0 and 1 and reads and writes in epoch 0 |
| RecordLayers.RecordLayer.CreateEpoch | src/DTLS/RecordLayer.ts:202-209 | Adds a fresh epoch that shares no object with another and leaves the rest of the table alone |
| RecordLayers.RecordLayer.EnsureNextEpoch | src/DTLS/RecordLayer.ts:196-201 | Creates the next epoch if and only if it is missing |
| RecordLayers.RecordLayer.AdvanceReadEpoch | src/DTLS/RecordLayer.ts:211-214 | Moves the read epoch and completes the table |
| RecordLayers.RecordLayer.AdvanceWriteEpoch | src/DTLS/RecordLayer.ts:215-218 | Moves the write epoch and completes the table |
| RecordLayers.RecordLayer.TakeSequenceNumber | src/DTLS/RecordLayer.ts:54 | Returns and stores the next sequence number of the current write epoch; no other epoch changes |
| RecordLayers.RecordLayer.ProtectOutgoing | src/DTLS/RecordLayer.ts:48-65 | Numbers a message in the current write epoch and protects it with the cached cipher; without a suite it throws, the number being taken |
| RecordLayers.RecordLayer.ProcessOutgoingMessage | src/DTLS/RecordLayer.ts:47-77 | Adds the switch of the write epoch behind a ChangeCipherSpec, which does not happen when protection throws |
| RecordLayers.RecordLayer.Send | src/DTLS/RecordLayer.ts:39-42 | One message in one datagram, or none when it throws |
| RecordLayers.RecordLayer.SendFlight | src/DTLS/RecordLayer.ts:82-87 | All messages, across an epoch switch in the middle, in one datagram; none is sent when one throws |
| RecordLayers.RecordLayer.ReadPackets | src/DTLS/RecordLayer.ts:94-110 | The parse loop ends, and yields the records before the first error |
| RecordLayers.RecordLayer.MayReceive | src/DTLS/RecordLayer.ts:115-132 | The filter admits by known epoch, current read epoch and window |
| RecordLayers.RecordLayer.FilterPackets | src/DTLS/RecordLayer.ts:114-132 | Keeps exactly the admitted records, in order, without changing any window |
| RecordLayers.RecordLayer.DecipherPackets | src/DTLS/RecordLayer.ts:137-149 | Deciphers in order, drops what throws, and caches the delegates it reads |
| RecordLayers.RecordLayer.MarkPackets | src/DTLS/RecordLayer.ts:152-155 | Marks every delivered record in the window of its epoch |
| RecordLayers.RecordLayer.Receive | src/DTLS/RecordLayer.ts:93-162 | The object goes through parse, filter, decipher and mark as the pipeline on its value does, and returns the delivered messages |
| RecordProofs.EpochTable | src/DTLS/RecordLayer.ts:113-116 | In every run the epochs are exactly 0 .. max(read, write) + 1 and both next epochs exist |
| RecordProofs.ReceiveDelivers | src/DTLS/RecordLayer.ts:93-162 | `receive` delivers an order-preserving selection of the parsed records, all admitted beforehand; each window changes by exactly the delivered records of its epoch, so a forged record leaves no trace |
| RecordProofs.StepSpends | src/DTLS/RecordLayer.ts:152-155 | Delivery spends a number, and every operation keeps spent numbers spent |
| RecordProofs.NoRedelivery | src/DTLS/RecordLayer.ts:93-162 | In every run of the record layer no record is delivered by two calls (section 4.1.2.6 of RFC 6347) |
| RecordProofs.WindowIsHistory | src/DTLS/RecordLayer.ts:152-155 | In every run each window is the fresh one marked with exactly the delivered numbers of its epoch |
| WriteOrder.Invariant | src/DTLS/RecordLayer.ts:47-77 | In every run the numbers taken are in order and agree with the counters of the epochs |
| WriteOrder.TakenInOrder | src/DTLS/RecordLayer.ts:47-77 | The (epoch, number) pairs increase strictly and count 0, 1, 2, ... without a gap in each epoch (section 4.1 of RFC 6347) |
| WriteOrder.DistinctOnTheWire | src/DTLS/RecordLayer.ts:47-77 | Below 2^32 records per epoch and 2^16 epochs no two records have the same number on the wire |
| WriteOrder.EmittedNumber | src/DTLS/RecordLayer.ts:50-68 | What is sent is the printed packet with the type of the message, the version of the current write epoch, that epoch and the number taken, also after protection |
| WriteOrder.IvIsDrawn | src/TLS/BlockCipher.ts:70-87 | A record of an epoch with a cipher starts with random bytes drawn for this epoch and number alone, as many as its cipher asks for; without one it is the message itself |
| WriteOrder.RecordAfterChangeCipherSpec | src/DTLS/RecordLayer.ts:70-73 | The record behind a ChangeCipherSpec is number 0 of the epoch it opened |
| Transfer.JoinedRecord | src/DTLS/RecordLayer.ts:47-68 | A record protected by one side deciphers, in its wire form, to the plain record on a side with matching keys |
| Transfer.ParsesAll | src/DTLS/RecordLayer.ts:94-110 | The parse loop recovers every boundary in a concatenation of records |
| Transfer.TailIsIgnored | src/DTLS/RecordLayer.ts:94-110 | Whole records in front of bytes that are no record are kept |
| Transfer.DeliveredIff | src/DTLS/RecordLayer.ts:112-149 | A record is delivered if and only if its epoch is from the one that is read to the one behind both current ones, the window of that epoch accepts its number, and it deciphers with the delegate that was cached or else with the suite and keys of the epoch |
| Transfer.FlightTransfer | src/DTLS/RecordLayer.ts:82-162 | A flight with at most one ChangeCipherSpec arrives at a matching peer as exactly the same messages in the same order |
| Transfer.OnceInOneDatagramIff | src/DTLS/RecordLayer.ts:114-155 | One call delivers exactly the deliverable records of a datagram; it delivers no number twice if and only if no two of them carry the same |
| Transfer.RepeatedInOneDatagram | src/DTLS/RecordLayer.ts:114-155 | A deliverable record that is repeated n times in one datagram is delivered n times |
| Fragments.ComputeIsComplete | src/DTLS/Handshake.ts:159-188 | The checks for one message and for holes agree with the completeness function, which throws on mixed fragments |
| Fragments.ComputeReassemble | src/DTLS/Handshake.ts:232-254 | Copying the sorted fragments into an uninitialised buffer in place gives the overlaid body |
| Fragments.ComputeSplit | src/DTLS/Handshake.ts:194-226 | The loop yields at most one fragment, none for an empty body, and throws when no byte fits |
| FragmentProofs.FoundExactly | src/DTLS/Handshake.ts:143-154 | The fragments found are exactly those with the type, number and length of the reference, in their order |
| FragmentProofs.CompleteCovers | src/DTLS/Handshake.ts:159-188 | Fragments judged complete, in any order, cover every byte |
| FragmentProofs.ReassembleIgnoresGarbage | src/DTLS/Handshake.ts:241-244 | No uninitialised byte remains in a message judged complete |
| FragmentProofs.ReassembledByte | src/DTLS/Handshake.ts:232-254 | Of any fragments: a byte that several cover is the one of the last of them in offset order, equal offsets in order of arrival; one that none covers is left as it was |
| FragmentProofs.ReassembleIsCorrect | src/DTLS/Handshake.ts:232-254 | Fragments of one body that are judged complete, with overlaps and duplicates in any order, reassemble to that body (section 4.2.3 of RFC 6347) |
| FragmentProofs.CoverIsMissedIff | src/DTLS/Handshake.ts:159-188 | Of any fragments that cover a message, complete means: in offset order, equal offsets in order of arrival, none starts more than one byte behind the end of the one directly before it and the last one ends the message |
| FragmentProofs.FlatCompleteIffCovered | src/DTLS/Handshake.ts:159-188 | For non-empty fragments none of which lies strictly inside another, complete means exactly that every byte is covered |
| FragmentProofs.NestedCoverIsMissed | src/DTLS/Handshake.ts:179 | A whole message with one inner byte repeated is not recognised as complete |
| FragmentProofs.SplitRoundTripIff | src/DTLS/Handshake.ts:194-254 | Splitting and reassembling restores a message if and only if it is not empty and fits into one fragment |
| Handshakes.FragmentLayout | src/DTLS/Handshake.ts:84-90 | The handshake header field by field, in order and size (section 4.2.2 of RFC 6347) |
| Handshakes.ParsePrintedFragment | src/DTLS/Handshake.ts:84-91 | A fragment whose fields fit the header is parsed back from its bytes |
| MessageBytes.FragmentParsesIff | src/DTLS/Handshake.ts:84-91 | A handshake record is parsed if and only if its twelve header bytes are there; its fields are at their offsets and the fragment takes the length it announces |
| MessageBytes.FromFragmentIff | src/DTLS/Handshake.ts:54-78 | A message is returned if and only if the fragment is whole, its type is 0, 1, 2, 3, 12, 14 or 20 and its body parses; a ServerKeyExchange or Finished is its whole body as one field |
| MessageBytes.BodySpecs | src/DTLS/Handshake.ts:258-459 | Which types have a class, and the fields of each |
| MessageBytes.CookieOf | src/DTLS/Handshake.ts:328-345 | The cookie of a HelloVerifyRequest is what follows the version and one byte of length |
| MessageBytes.ServerHelloFields | src/DTLS/Handshake.ts:301-326 | Where a ServerHello that parses has its version, random and cipher suite, whatever its session id and extensions |
| Handshakes.FromFragmentInverts | src/DTLS/Handshake.ts:42-78 | Every canonically built message is recovered from its unfragmented form |
| Handlers.VerifyDataIsPrf | src/DTLS/HandshakeHandler.ts:334-337 | Verify data exists if and only if suite, PRF and master secret do, and is then the PRF over usage and transcript hash in the length the suite sets |
| Handlers.PreMasterSecretLayout | src/TLS/PreMasterSecret.ts:8-26 | The premaster secret is N zeros and the N bytes of the key, each behind a two-byte length (section 2 of RFC 4279) |
| Handlers.ClientKeyExchangeLayout | src/DTLS/HandshakeHandler.ts:406-412 | The body of a ClientKeyExchange is the identity behind its two-byte length |
| MessageBytes.ServerHelloSets | src/DTLS/HandshakeHandler.ts:369-380 | A ServerHello that parses gives its random and suite to the next epoch, its two version bytes to the current and the next write epoch, and changes nothing else |
| MessageBytes.KeyExchangeThrowsIff | src/DTLS/HandshakeHandler.ts:382-393 | A ServerKeyExchange makes the handler throw if and only if no suite is known, or for PSK its body is shorter than two bytes |
| Hellos.ClientHelloBytes | src/DTLS/Handshake.ts:272-299 | The body of a ClientHello: version FE FD, the 32 bytes of the random, no session id, the cookie behind its length, each suite in two bytes and in order behind their length, the null compression method, no extensions |
| Hellos.FirstDatagram | src/DTLS/HandshakeHandler.ts:58-108 | The first datagram of every session from its first byte to its last, with the suites that were configured; the random in it is the one that epoch 1 remembers |
| Hellos.SecondDatagram | src/DTLS/HandshakeHandler.ts:347-363 | The answer to a HelloVerifyRequest is that ClientHello with its cookie and nothing else changed, as message 1 and the next record |
| Hellos.AnswerBytes | src/DTLS/HandshakeHandler.ts:402-445 | The bytes of ClientKeyExchange, ChangeCipherSpec and Finished as they are put into records |
| HandshakeHandlers.ClientHandshakeHandler.BufferHandshakeData | src/DTLS/HandshakeHandler.ts:303-305 | Appends the encodings of exactly the messages that need hashing, in order |
| HandshakeHandlers.ClientHandshakeHandler.HandleServerHelloDoneFlight | src/DTLS/HandshakeHandler.ts:366-449 | The loop over the flight, which stops when a message throws or returns |
| HandshakeHandlers.ClientHandshakeHandler.TryAssembleFragments | src/DTLS/HandshakeHandler.ts:199-216 | If the fragments of the message are complete it is filed and all of them leave the queue; otherwise nothing changes |
| HandshakeHandlers.ClientHandshakeHandler.CompleteMsgIndices | src/DTLS/HandshakeHandler.ts:145 | The stored numbers in ascending order |
| HandshakeHandlers.ClientHandshakeHandler.IsSequence | src/DTLS/HandshakeHandler.ts:147-149 | The comparison of neighbours says exactly that the numbers continue the last processed one without a gap |
| HandshakeHandlers.ClientHandshakeHandler.ProcessIncomingMessage | src/DTLS/HandshakeHandler.ts:132-195 | The handler and its record layer together go through one step of the handshake as their value does |
| HandlerProofs.StoreFrame | src/DTLS/HandshakeHandler.ts:132-142 | Storing changes nothing but the two queues and files at most the message's own number |
| HandlerProofs.StoreEffect | src/DTLS/HandshakeHandler.ts:132-142 | What storing does: a whole message replaces one with its number, a fragment is queued unless it completes its message, and then exactly the fragments of that message leave the queue; what cannot be parsed files nothing |
| HandlerProofs.DispatchEffect | src/DTLS/HandshakeHandler.ts:153-189 | What a dispatch does to the queue, the expectation and the outcomes, and that only a matching Finished adds a success |
| HandlerProofs.OnlyFinishedSucceeds | src/DTLS/HandshakeHandler.ts:344-476 | A flight that does not end in a Finished never adds a success |
| HandlerProofs.FinishedOutcome | src/DTLS/HandshakeHandler.ts:160-187 | A Finished ends the handshake: success if it matches, a decrypt error if not, an exception if there is nothing to compare it with; it enters the transcript once it was compared |
| HandlerProofs.StepProgress | src/DTLS/HandshakeHandler.ts:153-189 | Each dispatch strictly lowers the rank of the expectation and nothing else changes it |
| HandlerProofs.RunProgress | src/DTLS/HandshakeHandler.ts:132-195 | Any run, with any incoming messages, dispatches at most three flights |
| HandlerProofs.SuccessNeedsMatchingFinished | src/DTLS/HandshakeHandler.ts:452-474 | Success is added only by a server flight, when it was expected, whose Finished equals the verify data over the transcript |
| HandlerProofs.HandledInOrder | src/DTLS/HandshakeHandler.ts:143-161 | Over any run the flights handled concatenate to the messages 0, 1, 2, ... without gap or repetition, and the last processed number is the last of them |
| FlightAssembly.StoreStep | src/DTLS/HandshakeHandler.ts:134-142 | Each fragment that arrives, of the flight or of an old message, repeated or not, keeps exactly the finished messages filed and the pieces of the others queued |
| FlightAssembly.ReadyIffAllDone | src/DTLS/HandshakeHandler.ts:145-155 | The flight is ready if and only if every byte of every message has arrived and no old message is stored; then the stored messages are the flight |
| FlightAssembly.WaitsForAll | src/DTLS/HandshakeHandler.ts:132-155 | Before that nothing is dispatched, whatever the record layer does meanwhile |
| FlightAssembly.FlightIsAssembled | src/DTLS/HandshakeHandler.ts:132-161 | However a due flight is cut into pieces, however often and in whatever order they arrive, with fragments of old messages in between, it is dispatched once, on its last missing piece, with the same messages in sequence order |
| FlightAssembly.DispatchedIffNotBlocked | src/DTLS/HandshakeHandler.ts:143-155 | A due flight that has arrived in full is dispatched if and only if no message that was processed before is stored |
| FlightAssembly.BlockedForGood | src/DTLS/HandshakeHandler.ts:140-150 | Once such a message is stored, in every run that follows no flight is dispatched, nothing is decided and it stays stored |
| Transcripts.ServerMessagesAreHashed | src/DTLS/HandshakeHandler.ts:310-322 | Of a server flight every message enters the transcript, whole and in order |
| Transcripts.CookieExchange | src/DTLS/HandshakeHandler.ts:347-363 | After the cookie exchange the transcript is exactly the second ClientHello |
| Transcripts.ClientFinishedCovers | src/DTLS/HandshakeHandler.ts:431-446 | If the client answers, its Finished covers the transcript so far, the server flight in order and the ClientKeyExchange, and both its messages join the transcript |
| Transcripts.ServerFinishedCovers | src/DTLS/HandshakeHandler.ts:452-474 | The handshake succeeds if and only if the server's verify data covers the transcript, the client's Finished included |
| Transcripts.TranscriptAgreement | src/DTLS/HandshakeHandler.ts:160-187 | Both statements over a whole handshake with a cookie, however the server cut and reordered its messages (section 4.2.6 of RFC 6347) |
| LayerChanges.ReceiveChanges | src/DTLS/RecordLayer.ts:93-162 | Receiving changes nothing in the connection state of an epoch but its decipher delegate, which is cached if and only if a record of the epoch was admitted |
| LayerChanges.CalmStep | src/DTLS/RecordLayer.ts:39-218 | Receiving, transmitting, sending anything but a ChangeCipherSpec and following the peer keep the parameters and delegates of every epoch and write in the current one only |
| LayerChanges.CalmDecipher | src/TLS/ConnectionState.ts:51-56 | The decipher delegate of an epoch is cached by deciphering a record of it and changed by nothing else |
| LayerChanges.SendingIsDiscreet | src/DTLS/RecordLayer.ts:82-87 | Sending any messages keeps the parameters and delegates of every epoch and gives none to a new one |
| ClearFlights.ClearDatagram | src/DTLS/RecordLayer.ts:47-87 | In the clear a flight never fails: its datagram is exactly the printed records with the next numbers, and only the counter moves |
| ClearFlights.ClearArrives | src/DTLS/RecordLayer.ts:93-162 | Records in the clear whose numbers are free arrive, in order, at a receiver that reads epoch 0 |
| KeyAgreement.StartIsEarly | src/DTLS/HandshakeHandler.ts:58-108 | After the start only epoch 1 knows the client random, nothing is keyed or deciphered, and exactly the records of the ClientHello were sent |
| KeyAgreement.CalmIsQuiet | src/DTLS/RecordLayer.ts:93-218 | Over any events of the record layer the parameters of every epoch stay, and each ChangeCipherSpec that is followed moves the read epoch by one |
| KeyAgreement.KeyedByComputation | src/TLS/ConnectionState.ts:64-103 | Master secret and key material are those derived from both randoms |
| KeyAgreement.OnlyEpochOneIsKeyed | src/DTLS/HandshakeHandler.ts:396-429 | The keys can be computed in epoch 1 only, since no other epoch knows the client random, and only while the client reads epoch 0 |
| KeyAgreement.AnswerIsSent | src/DTLS/HandshakeHandler.ts:431-446 | With the keys computed the client never throws: it sends one datagram with ClientKeyExchange and ChangeCipherSpec in the clear and the Finished, protected, as number 0 of epoch 1 |
| KeyAgreement.FlightIsAnsweredIff | src/DTLS/HandshakeHandler.ts:366-449 | The client answers a server flight if and only if it reads epoch 0 and the flight is acceptable; the answer uses random and suite of the last ServerHello, and otherwise nothing is sent |
| KeyAgreement.HelloIsRepeated | src/DTLS/HandshakeHandler.ts:347-363 | A HelloVerifyRequest is always answered, with the stored ClientHello and the cookie, in the clear |
| KeyAgreement.CalmKeepsLate | src/DTLS/RecordLayer.ts:211-218 | After the answer keys and delegates of epoch 1 stay and the read epoch counts the ChangeCipherSpecs followed |
| EpochAgreement.AnswersIff | src/DTLS/HandshakeHandler.ts:132-449 | In any run that ends with the server flight: the client answers with exactly one datagram, reports nothing and waits for the Finished if and only if it followed no ChangeCipherSpec before and the flight is acceptable; otherwise it sends nothing and reports one failure, a handshake failure if the suite is not for PSK and an exception otherwise |
| EpochAgreement.AnswerIsKeyedBy | src/DTLS/HandshakeHandler.ts:369-429 | Suite and server random of epoch 1 are those of the last ServerHello of the flight, and its secret and keys are derived from them and the client random |
| EpochAgreement.EpochAgreement | src/DTLS/HandshakeHandler.ts:328-339 | From a fresh start both verify data use the same epoch 1 state, keyed by the client random and the last ServerHello; the handshake succeeds if and only if exactly one ChangeCipherSpec is followed behind the client's flight and the server's Finished matches |
| Phases.FlightInFlight | src/DTLS/HandshakeHandler.ts:366-449 | A server flight of any shape, with several ServerHelloDones or none at the end, is answered at most once, and nothing else is sent |
| Phases.RunKeepsPhase | src/DTLS/HandshakeHandler.ts:132-195 | Every run from the start is in one of three phases: waiting with nothing keyed or queued, given up without keys, or with the keys of epoch 1 |
| Phases.DelegatesInUse | src/TLS/ConnectionState.ts:44-56 | In every run, as soon as there are keys the client enciphers with them, and deciphers with them if and only if no record of epoch 1 was admitted before; no other epoch ever has keys |
| Phases.RunKeepsKeys | src/TLS/ConnectionState.ts:64-103 | The keys never change once they are there |
| Phases.FinishedIsRecordZero | src/DTLS/HandshakeHandler.ts:236-268 | In every run the write epoch moves at most once, from 0 to 1, in a step that sends one datagram with the Finished as record 0 of epoch 1; until then nothing is queued while a ServerHelloDone is expected |
| Completion.ClientAnswersIff | src/DTLS/HandshakeHandler.ts:347-449 | From a fresh start, after the cookie exchange: the client answers, in full, if and only if it followed no ChangeCipherSpec before and the flight chose a PSK suite with a PRF, its key exchange messages parse and there is a key; otherwise it reports one failure, and which |
| Completion.RepeatedMessageBlocks | src/DTLS/HandshakeHandler.ts:140-150 | Any whole message that was processed before, received again, ends all progress in every run that follows |
| Completion.RepeatedHelloVerifyBlocks | src/DTLS/HandshakeHandler.ts:140-150 | The input: a HelloVerifyRequest that comes a second time after it was answered |
| LayerRuns.SendingRuns | src/DTLS/RecordLayer.ts:82-87 | Sending a flight prints its records one after the other until one fails, as single sends do |
| LayerRuns.ProcessingRuns | src/DTLS/HandshakeHandler.ts:132-195 | An incoming message changes the record layer only by configuring connection states and by sending records in whole datagrams; if nothing is left in the queue no record failed |
| Sessions.Socket.constructor | src/dtls.ts:116-151 | Record layer and handshake handler are set up and the handshake is started |
| Sessions.Socket.FinishedCallback | src/dtls.ts:126-143 | On success everything buffered is emitted in order; failures emit nothing |
| Sessions.Socket.HandleMessage | src/dtls.ts:183-220 | One message of a datagram: handshake, ChangeCipherSpec or application data; a message that throws changes nothing of the data |
| Sessions.Socket.UdpOnMessage | src/dtls.ts:177-222 | The loop over the messages of a datagram, which an exception ends |
| Sessions.Socket.SendData | src/dtls.ts:77-93 | Sends only when the handshake is finished, and throws otherwise |
| SessionProofs.SessionIsRun | src/dtls.ts:177-222 | Every session is a run of handler events, so that what was proved of such runs holds of sessions |
| SessionProofs.SessionIsCalm | src/dtls.ts:182-222 | In a session only the handshake sends a ChangeCipherSpec |
| SessionProofs.AllAreHandled | src/dtls.ts:182-221 | Every message of a datagram is handled, in order, up to and including the first that throws, which is a handshake record cut short or one that completes a message that cannot be parsed; without one, all are |
| SessionProofs.OtherMessages | src/dtls.ts:188-219 | What a record does that is no handshake record, by its type in numbers: 20 moves the read epoch by one, 23 is emitted or kept, nothing else has an effect |
| SessionProofs.DatagramIsEmitted | src/dtls.ts:177-222 | In a finished session a datagram without handshake records hands over all the data of its records, in order |
| SessionProofs.DataIsConserved | src/dtls.ts:209-219 | In every session nothing is emitted before the handshake succeeds, and afterwards exactly all data in order that arrived, before or after, in front of the first record of its datagram that throws |
| SessionProofs.DataWaits | src/dtls.ts:77-93 | As long as the handshake has not succeeded a session is the same as without what its user tried to send |
| SessionProofs.SuccessHasAStep | src/DTLS/HandshakeHandler.ts:452-474 | A run that reaches success has a step at which the server's Finished was handled and matched |
| SessionProofs.EmissionNeedsVerifiedFinished | src/dtls.ts:126-143 | A session that has emitted data has handled at most three flights and a matching server Finished among them |
| SessionLayers.InputRunsLayer | src/dtls.ts:177-222 | Every input acts on the record layer by its reception and then by operations that receive nothing, in whole datagrams, and no record fails as long as the client can protect what it sends |
| SessionLayers.SessionRunsLayer | src/DTLS/RecordLayer.ts:39-218 | The record layer of every session is a run from the fresh one that receives exactly the datagrams of the session and sends its records in whole datagrams; its epoch table is complete, its numbers are in order and every window is marked with exactly the numbers that the session delivered |
| SessionLayers.DeliveredByOneDatagram | src/DTLS/RecordLayer.ts:93-162 | In every session, with all that the handshake and the user do, no record is delivered by two datagrams |
| Authenticity.EarlyRecordIsRemembered | src/TLS/ConnectionState.ts:51-56 | One plain record of epoch 1 received by a fresh record layer is delivered and leaves a delegate that deciphers nothing, which stays in use whatever keys are computed for the epoch |
| Authenticity.TouchedIffTainted | src/dtls.ts:177-222 | A session touches epoch 1 before its keys exactly if one of its datagrams holds a record of epoch 1 that is admitted |
| Authenticity.SessionDelegates | src/TLS/ConnectionState.ts:44-56 | In every session with keys the client enciphers with them, and deciphers with them if and only if no datagram held such a record |
| Authenticity.KeysStay | src/TLS/ConnectionState.ts:64-103 | Once computed the keys of a session stay, and no later record taints it |
| Authenticity.ArrivalIsDeciphered | src/DTLS/RecordLayer.ts:137-149 | Each application data record that is handled was deciphered, by the delegate named, from an admitted record of the datagram |
| Authenticity.ArrivalIsAuthenticIff | src/dtls.ts:209-219 | In a session with keys an application data record was deciphered with them if and only if it came in epoch 1 and no record of epoch 1 was admitted before the keys |
| Authenticity.EmittedIsAuthenticIff | src/dtls.ts:126-143 | All data that a finished session emitted was deciphered with the keys if and only if none came in another epoch than 1 and, if there was any, no record of epoch 1 was admitted before the keys |
| Authenticity.ClearDataIsEmitted | src/dtls.ts:209-219 | Data in the clear right after the start is the first data that the session emits when it succeeds |
| HonestServer.HearsCookie | src/DTLS/HandshakeHandler.ts:347-363 | The cookie request, in whatever datagrams, makes the client send the second ClientHello, which alone is in the transcript |
| HonestServer.HearsFlight | src/DTLS/HandshakeHandler.ts:366-449 | The server's flight makes the client compute the agreed secret and keys and answer; its Finished is the PRF of that secret over the four messages before it |
| HonestServer.HearsFinished | src/DTLS/HandshakeHandler.ts:452-474 | The server's Finished over all five messages, behind one ChangeCipherSpec, makes the handshake succeed and end |
| Outbound.SessionIsFlawless | src/DTLS/RecordLayer.ts:39-88 | No record that a session sends ever fails: whenever something is sent the write epoch is plain or has keys, and nothing is left in the queue |
| Outbound.RecordsOnTheWire | src/DTLS/RecordLayer.ts:39-88 | Every datagram of a session consists of whole records, and over all its datagrams the records are numbered 0, 1, 2, ... without a gap in each epoch, never going back to an earlier one (section 4.1 of RFC 6347); the counters agree |
| Outbound.DataIsProtected | src/dtls.ts:77-93 | In every finished session `send` hands one datagram to the socket, the data as the next record of epoch 1 enciphered with the keys derived from the pre-shared key and both randoms, and changes nothing else but the number |
| Outbound.DatumArrives | src/DTLS/RecordLayer.ts:82-162 | A peer with the same keys that missed fewer than 32 records delivers exactly the data of the next one and can follow on |
| Outbound.StreamArrives | src/dtls.ts:77-93 | Any number of pieces of data sent after the handshake go out in one datagram each, and a peer with the same keys delivers exactly these, in order |
| ProtectedTurns.ReplyArrives | src/DTLS/RecordLayer.ts:82-162 | A server with the same keys receives from the client's datagram exactly the ClientKeyExchange, the ChangeCipherSpec and the Finished |
| ProtectedTurns.LastTurnArrives | src/DTLS/RecordLayer.ts:82-162 | The server's ChangeCipherSpec and protected Finished arrive at the client |
| Conversations.HonestServerConnects | src/dtls.ts:177-222 | A whole handshake on the wire: with a server that knows the key and what it receives, the client sends exactly three datagrams, from which the server hears the two ClientHellos and the three messages of the answer, and the server's three datagrams make the session succeed with the agreed keys on both sides, for any cookie, random, PSK suite and undisturbing prefix |
| DataExchange.DataReachesServer | src/dtls.ts:77-222 | A whole session with an honest server: the handshake succeeds and whatever the user sends afterwards is delivered by the server, piece by piece and in order |
| Conversations.ClearDataThenHandshake | src/dtls.ts:209-219 | The input: application data in the clear and then such a handshake; the session succeeds and emits that data first |

## Left out

- Real cryptography: hashes, HMAC, block ciphers and AEAD are unknown functions with the laws named above; random bytes are parameters.
- UDP, timers, name resolution, option checks and event listeners: a session is the sequence of datagrams and sends that reach the socket while it is open.
- Incoming alerts, the alert sent after a failed handshake, `close` and `killConnection`: they end a session and do not change what is proved of it up to then.
- The cipher suite table: a parameter. Every suite in it is asked to have verify data of 1 to 255 bytes and a block size of 1 to 256 equal to its record IV length, or a tag of 1 to 256 and a record IV of at most 256 bytes, as all entries of the source have.
- Retransmission, renegotiation of a live session and key exchanges other than PSK: not implemented in the source, where an unsupported key exchange fails as in the model.
- The compatibility option that replaces the window before a ServerHello: it gives up de-duplication on purpose.
- `DTLSPlaintext` serialisation and compression methods: packets are never sent in that form and the only compression is the identity.
- Object identity of handshake messages: messages are values, so that setting the cookie or the number of a stored ClientHello makes a new value, and removing assembled fragments by identity is removing the fragments of that message.
- Numbers of 64 bits: no spec uses them. Record sequence numbers stay below 2^53, where JavaScript numbers are exact.
- A NaN in a version or suite field of a parsed message behaves like 0 where it is written or looked up again.
- Stored handshake messages are listed up to number 65535, the largest that the header can carry.
- FlightTransfer: asks for records unmarked, at most 64 above the peer's ceiling and numbered below 2^32, because the window refuses and the codec truncates the others.
- FlightIsAssembled: asks for canonically encoded messages, and for pieces of one message that are the same or do not overlap, because `isComplete` misses some covers with nested fragments.
- TranscriptAgreement: is about handshakes with a non-empty cookie; without one the source leaves the ClientHello out of the transcript.
- FinishedCallback: sends no alert and does not close the connection after a failure, as alerts and closing are not modelled; a session goes on where the source has ended it, so that what is proved holds up to that point too.
- HandleMessage: ignores incoming alerts, for the same reason.
- EpochAgreement: is about handshakes with a non-empty cookie, like TranscriptAgreement.
- StreamArrives: asks for at most 2^14 bytes in each piece, the limit of section 6.2.1 of RFC 5246 that the source does not check, and for record numbers below 2^32; DatumArrives asks only that the protected record keeps the limit of its type.
- HonestServerConnects: the server's messages come whole, one datagram for each of its turns, its flight is a ServerHello and a ServerHelloDone, and numbers 0 to 4 of epoch 0 are its own; ClientFinishedCovers and AnswersIff speak of other flights and other cuts. It computes its keys from the parameters of the exchange and not by parsing what it receives, which is proved to be the messages that carry them.
- AnswersIff: says which failure is reported only where no ChangeCipherSpec was followed before the flight; ClientAnswersIff does the same.
- SecondDatagram: is about the first answer to a HelloVerifyRequest, before any version was negotiated.
- ComputeP: lengths are natural numbers; the default length of 32 is not used by any caller.
