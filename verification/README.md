# LocalScale: protocol and control-state proofs

LocalScale joins one Host and several Clientes by an authenticated stream. This project models the part of
its Rust code that decides who is accepted, which nonces and addresses are handed out, what bytes and
texts mean, and how the local control interface changes the stored peer, and proves what each of those
promises over every input and every run.

Text is a Dafny `string` (a sequence of Unicode scalar values, as a Rust `str` is); what travels on a wire
is a sequence of bytes, with UTF-8 (section 3 of RFC 3629) in between. Clocks, random draws and the answers
of a nonce allocator are parameters. The AEAD is symbolic: a sealed value opens under the same key, nonce
and associated data, and under nothing else. Runs are sequences of events of any length; a lemma about a run
is about every prefix of every sequence.

| file | what it holds |
|---|---|
| `Wrappers`, `Sequences`, `Utf8`, `Numbers` | options and results, splitting and trimming, UTF-8, big-endian, decimal and hexadecimal |
| `Runs` | runs of any system with one step per event, and what its steps keep |
| `Frames`, `Multiplexer` | length-prefixed frames, the two channels on one mutex-guarded stream |
| `Messages`, `MessageTexts`, `Envelopes` | the bar-separated records, the exact language of their parsers, and the binary handshake envelope |
| `Replay` | the replay guard, its pruned map against the whole history |
| `Nonces` | the 192-bit counter file shared by many processes |
| `SealRuns` | envelopes of many processes on one counter file |
| `TransportKeys`, `Handshake`, `Agreement`, `Reacceptance` | derived keys, `accept` and `connect`, agreement over an adversarial network, and one init accepted twice |
| `Heartbeats`, `WireHeartbeats` | the ping/pong loops of the two ends, and the same over the multiplexed bytes |
| `HostRegistry`, `RegistryRuns` | pending and bound slots, accept and bind with requests and restarts in between |
| `AddressPool`, `Addresses` | last octets and whole addresses over every interleaving of requests that read the pool and add their slot in two steps |
| `Json`, `PeerRecords`, `PeerStores` | JSON escaping, the peer file's printer and weaker parser, the store |
| `Invitations`, `Agent`, `AgentRuns` | invitations, the request handlers, whole runs with restarts |
| `Outcomes` | what each request does, in full |
| `CleanRuns`, `ClosedStores` | what keeps the peer file readable, and what happens when it is not |
| `GateRaces` | the transport gate under handlers that overlap |
| `ModeTexts`, `FieldTexts` | the exact languages of the mode parser and of the field parser |
| `Pairing` | one pairing from end to end, across the runs of the Host's registry and of the Cliente's agent |

Classes (`FrameReader`, `ReplayGuard`, `CryptoKey`, `FileNonceAllocator`, `HostTransport`, `HostPeerRegistry`,
`PeerStore`, `AgentState`) follow the objects that the code updates in place; each method is proved equal to
a function of the old state, and the lemmas about runs are about those functions.

## What turned out to be conditional

- A handshake message can be accepted a second time by the message check alone, exactly when it was dated
  ahead of the clock at its first acceptance (`Replay.ReplayableIffFutureDated`). The session map, which is
  never pruned, still admits one session per envelope nonce in the life of a Host process. A restart empties it:
  a second acceptance of one envelope nonce needs a restart in between
  (`Reacceptance.SecondAcceptanceNeedsRestart`), and right after one an init that was accepted before is accepted
  again exactly when the gate is open, the allocator answers and the clock is within 300 seconds of its timestamp
  (`Reacceptance.ReacceptedIff`, `Reacceptance.RestartForgets`).
- If the clock goes back, an expired nonce becomes acceptable at once (`Replay.BackwardClockReadmits`).
- `accept` takes the peer's id from the plaintext and does not compare it with the header. For inits built by
  `connect` the two agree. A re-labelled init is accepted for the id in its plaintext, and when that id has a
  slot already, binding gives it a second one (`RegistryRuns.RelabelledInitSplitsDevice`). For any attempt,
  honest or not, `RegistryRuns.AcceptAndBindKeepNodesApartIff` says exactly when that does not happen.
- Generating an invitation takes the registry lock twice, to read the pool and to add the slot. The pool looks at
  last octets; an address is a prefix and an octet, and requests can read different prefixes. Over every
  interleaving, all addresses differ at all times exactly when no add meets a slot that has its address already
  (`Addresses.AddressesDifferIff`), and all last octets differ exactly when each add finds the octet that its
  request read still unused (`AddressPool.OctetsDifferIff`). Two reads with nothing in between give one octet; the
  addresses then differ exactly when the prefixes do and neither address was given
  (`Addresses.OverlappingGeneratesCollideIff`). A removal between the reads makes the octets differ exactly when it
  frees a lower one (`AddressPool.RemovalMovesNextOctetIff`). With all of 2..254 taken, the next slot gets 254
  again, and its address is new exactly when no slot is at its prefix with 254
  (`Addresses.GenerateKeepsAddressesIff`).
- Removing a device by the id it is shown under removes only what is shown under that id, unless a bound device
  calls itself `convite-pendente-` and the beginning of a pending invitation's id, of other than 8 characters:
  then that pending slot goes too (`HostRegistry.RemovingDisplayedEntryIff`,
  `HostRegistry.RemovingTakesMoreThanDisplayed`).
- The peer file's parser refuses backslashes and splits at every comma, so a record is read back exactly when
  its texts are clean (`PeerRecords.RecordRoundTrip`). Of what a handler stores only the address is not checked
  for that: a request for the address `<` is answered with success and the store does not open at the next start
  (`CleanRuns.AddressSurvivesRestartIff`, `CleanRuns.UncleanAddressIsAccepted`), nor at any later one, whatever
  requests follow (`ClosedStores.UncleanAddressClosesForever`). With clean addresses in its
  requests a run keeps its store readable through every restart (`CleanRuns.CleanRunsResume`).
- An imported or configured address may hold `|`, which the address route refuses; a heartbeat that carries it
  is never understood (`Heartbeats.HeartbeatRoundTrip`).
- A generated invitation names the Host's own device id, which generation does not validate; the invitation
  can be taken only if that id is a valid node id (`Invitations.GeneratedInvitationDecodes`).
- A pairing can fail after every step of it succeeded: when the address is not clean, when the Cliente takes the
  Host's own id or one registered there for its name, or when the invitation's secret begins like a stored key,
  which is kept as it is instead of being derived (`Pairing.PairingCompletesIff` says exactly when).
- Requests answered one at a time never leave the gate open while a restart is required. Handlers that overlap
  can: exactly when a change has raised the flag and the last write to the gate is that of an approval which had
  loaded the flag before (`GateRaces.LeftOpenIff`, `GateRaces.OneApprovalAndOneChange`).
- Once the nonce counter is at its maximum, the one call that stored the maximum can still return the last nonce
  below it; no other call returns anything (`Nonces.ExhaustedForever`).
- The first nonce of a machine is the random value that its call drew, exactly when no call was cut short between
  its rename and its return before; such a call takes its own value with it, and the next one reads the file
  (`Nonces.FirstNonceIsDrawnIff`, `Nonces.CutShortCallLosesDrawn`).
- The counter file and stored keys may be written by hand in more ways than the program writes them: a pair `+f`
  reads as 15 (`Nonces.DecodesNonceIff`, `TransportKeys.KeyOfStoredIff`). So may records: `v+01` is version 1
  (`MessageTexts.ParsesMessageIff`).
- The protocol's documentation speaks of a nonce registry of 4096 entries (`agent/protocol/README.md:45-46`);
  the code's registry only grows (`agent/protocol/src/lib.rs:492-494`), and so does the model's.

## Model

| member | source | states |
|---|---|---|
| `Frames.FrameRoundTrip` | agent/protocol/src/lib.rs:36-63 | a payload has a frame exactly when it is at most 64 KiB, and its frame decodes to it |
| `Frames.FrameBytes` | agent/protocol/src/lib.rs:36-45 | the frame is four bytes of length, the highest first, and then the payload |
| `Frames.DecodedFrameIsEncoded` | agent/protocol/src/lib.rs:47-63 | nothing is decoded but what encoding produces, byte for byte |
| `Frames.FrameDelimitsItself` | agent/protocol/src/lib.rs:47-63 | every frame cut short is incomplete, every frame with bytes after it has trailing bytes |
| `Frames.WholeFramesOfStream` | agent/protocol/agent/transport/src/lib.rs:827-847 | reading a stream of any frames gives back exactly their payloads, in order |
| `Frames.WholeFramesOfPrefix` | agent/protocol/agent/transport/src/lib.rs:833-847 | of any prefix of a stream the reader gets a prefix of the payloads and then waits, never refusing |
| `Frames.TakenIff` | agent/protocol/agent/transport/src/lib.rs:833-847 | a payload is read exactly when it has a frame and the unread bytes begin with that frame |
| `Frames.NotTakenMeans` | agent/protocol/agent/transport/src/lib.rs:833-847 | the reader refuses exactly at four bytes that spell more than 64 KiB, and waits exactly while a frame that fits is not all there |
| `Frames.BytesAreFramesAndRest` | agent/protocol/agent/transport/src/lib.rs:833-847 | whatever bytes come in, they are the frames of the payloads read, all of which fit, and a rest that begins with no whole frame |
| `Frames.FrameReader.ReadExact` | agent/protocol/agent/transport/src/lib.rs:833-847 | exactly the next bytes when there are enough, otherwise none and the rest is used up |
| `Frames.FrameReader.ReadFrame` | agent/protocol/agent/transport/src/lib.rs:833-847 | the payload that `Frames.TakenIff` describes and a position just past it, or the error for a short or oversized frame |
| `Multiplexer.OtherFramesChangeNothing` | agent/protocol/agent/transport/src/lib.rs:472-517 | an empty frame or one of another kind, anywhere in the stream, leaves the inbox as if it were not there |
| `Multiplexer.FrameGoesToItsChannel` | agent/protocol/agent/transport/src/lib.rs:472-517 | a frame that begins with byte 1 comes out among the heartbeats, one with byte 2 among the packets, in its place and without that byte |
| `Multiplexer.Demultiplex` | agent/protocol/agent/transport/src/lib.rs:472-517 | each inbox is the subsequence of the received frames of its kind, whatever bytes arrived |
| `Multiplexer.WireShape` | agent/protocol/agent/transport/src/lib.rs:454-464 | for every interleaving of writers, the wire is whole frames in lock order, then a prefix of the lock holder's frame |
| `Multiplexer.InboxIsPrefixOfSent` | agent/protocol/agent/transport/src/lib.rs:454-517 | at every moment, for every arrived part of the wire, each inbox is an in-order prefix of what its channel sent |
| `Multiplexer.NothingIsLost` | agent/protocol/agent/transport/src/lib.rs:454-517 | when no write is under way and all bytes have arrived, each inbox is everything its channel sent |
| `Messages.MessageRoundTrip` | agent/protocol/agent/transport/src/lib.rs:804-826 | printing then parsing gives the same message exactly for the syntactically valid ones, over the full range of timestamps |
| `Messages.PrintingNormalises` | agent/protocol/src/lib.rs:268-356 | printing what was parsed gives a text that parses to the same message, although `+7` and `007` are accepted too |
| `Messages.EncodeMessageInjective` | agent/protocol/agent/transport/src/lib.rs:804-826 | two different valid messages never have the same bytes |
| `Messages.ValidateMessageMeans` | agent/protocol/src/lib.rs:358-405 | validation succeeds exactly for valid syntax, the right receiving role, and a timestamp within 300 seconds of the clock |
| `Messages.ValidateSyntaxMeans` | agent/protocol/src/lib.rs:335-356 | a valid id, a valid nonce where there is one, and for probes an MTU of 576 to 9000 |
| `Messages.ValidationErrorsMean` | agent/protocol/src/lib.rs:358-405 | the wrong role is reported exactly for a handshake message at the wrong side, and the window exactly for a message with no other fault |
| `MessageTexts.ParsesUnsignedIff` | agent/protocol/src/lib.rs:321-323 | a number is read from exactly its spellings: an optional plus, any zeros, its printed form |
| `MessageTexts.ParsesMessageIff` | agent/protocol/src/lib.rs:268-319 | the exact language: bytes are parsed to a message exactly when it is valid and they are its fields between bars, with version 1 and the number in any spelling |
| `MessageTexts.OtherVersionsAreRefused` | agent/protocol/src/lib.rs:268-284 | any other version that fits a byte is refused as unsupported, whatever follows |
| `Envelopes.EnvelopeRoundTrip` | agent/protocol/src/lib.rs:624-634 | an envelope survives layout and parsing exactly when it has a valid id, a 24-byte nonce and a ciphertext of 16 to 2^32-1 bytes, in either role |
| `Envelopes.LayoutBytes` | agent/protocol/src/lib.rs:624-634 | the layout byte by byte: `LSV1`, role 0 or 1, two bytes of length, the id, the nonce, four bytes of length, the ciphertext |
| `Envelopes.ParsedIsWellFormed` | agent/protocol/src/lib.rs:738-783 | whatever parses has a valid id, a 24-byte nonce and room for a tag |
| `Envelopes.ParsedLaysOutIdentically` | agent/protocol/src/lib.rs:738-783 | serialising anything that was accepted gives the identical bytes, so no envelope has two encodings |
| `Envelopes.PeekAgreesWithParse` | agent/protocol/agent/transport/src/lib.rs:690-700 | the id read before decryption is the one the parsed envelope carries |
| `Envelopes.AssociatedDataInjective` | agent/protocol/src/lib.rs:730-737 | the authenticated data determine role and id |
| `Envelopes.AssociatedDataBytes` | agent/protocol/src/lib.rs:724-737 | they are `LS`, 1, the role byte and the characters of the id |
| `Replay.ReplayGuard.Accept` | agent/protocol/src/lib.rs:414-436 | the answer and the new map are those of one step of the specification, also on the error paths |
| `Replay.ReplayGuard.AcceptSession` | agent/protocol/src/lib.rs:438-457 | the answer and the new session map; an id conflict and a plain replay are told apart |
| `Replay.SessionAnswersMean` | agent/protocol/src/lib.rs:438-457 | over any run of session calls a nonce is taken exactly once; later calls are a replay exactly when they name the peer and role of that first use, and a conflict when they name others |
| `Replay.SeenMeans` | agent/protocol/src/lib.rs:427-435 | after any run under any clock, the pruned map holds exactly the accepted nonces that no later valid call has expired |
| `Replay.AcceptsAsHistoryDoes` | agent/protocol/src/lib.rs:414-436 | a call is accepted exactly when the whole unpruned history allows it, under any clock |
| `Replay.AcceptsUnlessRecent` | agent/protocol/src/lib.rs:414-436 | with a clock that never goes back: accepted exactly when valid and no acceptance of the nonce lies within 300 seconds |
| `Replay.BackwardClockReadmits` | agent/protocol/src/lib.rs:427-430 | a concrete run in which a clock that goes back lets the same message in twice at the same time |
| `Replay.AcceptedAtMostTwice` | agent/protocol/src/lib.rs:399-436 | one handshake message is accepted at most twice in a run of any length |
| `Replay.AcceptedOnceUnlessFutureDated` | agent/protocol/src/lib.rs:399-436 | and only once if it was not dated ahead of the clock at its first acceptance |
| `Replay.ReplayableIffFutureDated` | agent/protocol/src/lib.rs:427-433 | after its first acceptance a message can get through again exactly when its timestamp is ahead of the clock (and the 64-bit clock has room for the wait) |
| `Nonces.SuccessorAddsOne` | agent/protocol/agent/transport/src/lib.rs:110-119 | the carry adds one modulo the size of the counter |
| `Nonces.SuccessorWraps` | agent/protocol/agent/transport/src/lib.rs:110-119 | the carry comes out all zero exactly for the largest value, which is all `0xff` |
| `Nonces.Increment` | agent/protocol/agent/transport/src/lib.rs:110-116 | the carry loop, in place on the array, leaves the successor of what was there |
| `Nonces.StoredNonceReadsBack` | agent/protocol/agent/transport/src/lib.rs:162-171 | every 24-byte value written as hexadecimal is read back as itself |
| `Nonces.DecodePairsOfHex` | agent/protocol/agent/transport/src/lib.rs:906-908 | decoding pairs of hexadecimal digits inverts the printer for any number of bytes |
| `Nonces.FileNonceAllocator.Allocate` | agent/protocol/agent/transport/src/lib.rs:90-125 | one call returns the file's counter, or the value drawn when there is no file, and stores the next number; a text that spells no counter, or the last one, makes it fail and change nothing |
| `Nonces.DecodesNonceIff` | agent/protocol/agent/transport/src/lib.rs:162-171 | exactly which texts spell a counter: 48 characters, each pair two hexadecimal digits or a plus and one |
| `Nonces.ReturnedWasFound` | agent/protocol/agent/transport/src/lib.rs:90-125 | over every interleaving with crashes, each nonce returned is what a read found: the file's counter, or the value drawn when there was no file |
| `Nonces.FirstNonceIsDrawnIff` | agent/protocol/agent/transport/src/lib.rs:90-125 | starting without a file, the first nonce returned is what its own call read: the value that call drew exactly when no call before was cut short between rename and return, otherwise the file's counter |
| `Nonces.CutShortCallLosesDrawn` | agent/protocol/agent/transport/src/lib.rs:90-125 | the failing case: a call that ends between its rename and its return, after which the first nonce returned is one more than the value drawn |
| `Nonces.StepKeepsInv` | agent/protocol/agent/transport/src/lib.rs:90-125 | every lock, read, rename, return or crash keeps: returned nonces increase and the file is above them |
| `Nonces.NoncesNeverRepeat` | agent/protocol/agent/transport/src/lib.rs:62-125 | over all interleavings of any number of processes with crashes anywhere, returned nonces are strictly increasing, and the file stays above them all |
| `Nonces.ExhaustedForever` | agent/protocol/agent/transport/src/lib.rs:110-119 | once the stored counter is at its maximum, no call ever returns a nonce again, but for the call that stored it, which may still return the one below |
| `SealRuns.EnvelopesNeverShareNonce` | agent/protocol/agent/transport/src/lib.rs:90-125 | over every interleaving of processes on one counter file, with crashes anywhere and fresh keys and Host state in each, no two envelopes of `accept` or `connect` have the same nonce |
| `TransportKeys.StoredKeyReadsBack` | agent/protocol/agent/transport/src/lib.rs:137-160 | a key written in its stored form is read back as the same key |
| `TransportKeys.KeyOfStoredIff` | agent/protocol/agent/transport/src/lib.rs:148-160 | exactly which texts spell a key: the prefix and 64 characters, each pair spelling its byte |
| `Numbers.HexMeans` | agent/protocol/agent/transport/src/lib.rs:137-146 | each byte is two digits of `0123456789abcdef`, the higher half first |
| `TransportKeys.StoredFormInjective` | agent/protocol/agent/transport/src/lib.rs:137-146 | different keys have different stored forms |
| `Handshake.OpensOnlyWhatWasSealed` | agent/protocol/src/lib.rs:584-705 | an envelope opens exactly when it is the one that was sealed under that key, role, id and nonce |
| `Handshake.CryptoKey.RecordNonce` | agent/protocol/src/lib.rs:533-542 | a nonce is refused exactly when it was used before, and used nonces are never forgotten |
| `Handshake.CryptoKey.SealWithNonce` | agent/protocol/src/lib.rs:575-634 | sealing with a given nonce succeeds exactly when allowed, for a valid id and a fresh nonce, and only then uses the nonce up; the error of the first check that fails |
| `Handshake.CryptoKey.SealWithAllocator` | agent/protocol/src/lib.rs:584-634 | the allocator's nonce is used up even when sealing then fails |
| `Handshake.SealsNeverShareNonce` | agent/protocol/src/lib.rs:489-546 | over the life of a key, no two seals that succeed share a nonce, whichever way they got it |
| `Handshake.OpenWithCandidates` | agent/protocol/agent/transport/src/lib.rs:705-717 | the loop finds the first candidate that opens the envelope, or reports failed authentication |
| `Handshake.FirstMatchIsCandidate` | agent/protocol/agent/transport/src/lib.rs:705-717 | what was opened was opened by the first candidate whose key opens it, and the tag reported is that candidate's |
| `Handshake.HostTransport.Accept` | agent/protocol/agent/transport/src/lib.rs:645-683 | result, response and both replay maps after every branch from the decryption on |
| `Handshake.HostTransport.AcceptFrame` | agent/protocol/agent/transport/src/lib.rs:633-683 | the same from the frame on: closed gate, unreadable frame and malformed envelope change nothing, and reading the claimed id never fails after the envelope was parsed |
| `Handshake.SessionNonceInjective` | agent/protocol/agent/transport/src/lib.rs:909-913 | padding a nonce for the session map loses nothing |
| `Handshake.AcceptsIff` | agent/protocol/agent/transport/src/lib.rs:633-683 | exactly which attempts a Host takes: gate, allocator, an init under a candidate key, dated within 300 seconds, its nonce not seen in the last 300 and its envelope never |
| `Handshake.FrameAcceptsIff` | agent/protocol/agent/transport/src/lib.rs:633-683 | the same from the bytes on: a frame makes a session exactly when it is the layout of a well-formed envelope that is taken with the candidates for its id; any other frame changes nothing |
| `Handshake.ServeLeaves` | agent/protocol/agent/transport/src/lib.rs:645-683 | what every attempt leaves behind: nothing before the window check is passed, then the pruned map, then the nonce at the Host's time, then the session, even when no response can be sealed |
| `Handshake.FailuresMean` | agent/protocol/agent/transport/src/lib.rs:633-656 | for each reason of a failure exactly when it is given |
| `Handshake.ResponseAnswersInit` | agent/protocol/agent/transport/src/lib.rs:665-683 | the response opens under the key that opened the init, to the Host's id, its clock and the init's nonce |
| `Handshake.DialsIff` | agent/protocol/agent/transport/src/lib.rs:751-779 | `connect` sends an init exactly for a valid id and an allocator that answers, and it opens to that id, time and nonce |
| `Handshake.FinishesIff` | agent/protocol/agent/transport/src/lib.rs:780-801 | `connect` succeeds exactly when the response was sealed under its key for this Host, is a response that names it and echoes the nonce, and is dated within 300 seconds |
| `Handshake.SessionsHaveDistinctNonces` | agent/protocol/src/lib.rs:438-457 | over any run of one Host process, under any clock, sessions come from envelopes with different nonces |
| `Handshake.CopiesMakeOneSession` | agent/protocol/agent/transport/src/lib.rs:657-664 | any number of copies of one envelope, however late, make at most one session of one Host process |
| `Handshake.UndisturbedHandshakeSucceeds` | agent/protocol/agent/transport/src/lib.rs:751-801 | an undisturbed exchange with a shared key and close clocks succeeds, and each side gets the other's id |
| `Agreement.OpenedInitIsDialled` | agent/protocol/agent/transport/src/lib.rs:645-653 | an init that opens under the Cliente's key is one that the Cliente sealed, whatever the network did |
| `Agreement.OpenedResponseIsServed` | agent/protocol/agent/transport/src/lib.rs:780-801 | a response that opens under the Cliente's key is one that the Host sealed |
| `Agreement.PossibleStepKeepsInv` | agent/protocol/agent/transport/src/lib.rs:633-683 | every dial, delivery, answer and Host restart keeps the correspondence of calls and acceptances |
| `Agreement.HandshakeAgreement` | agent/protocol/agent/transport/src/lib.rs:751-801 | if `connect` returned a stream, the Host accepted this very init under the same key, for the Cliente's id, and echoed this nonce |
| `Agreement.AgreementIsInjective` | agent/protocol/agent/transport/src/lib.rs:751-801 | two calls of `connect` are never matched by the same acceptance |
| `Reacceptance.SecondAcceptanceNeedsRestart` | agent/protocol/agent/transport/src/lib.rs:603-623 | over any network run, an envelope nonce is accepted twice only with a restart of the Host in between |
| `Reacceptance.ReacceptedIff` | agent/protocol/agent/transport/src/lib.rs:633-683 | an init accepted before and delivered again is accepted exactly when gate, allocator and clock allow it and the Host has forgotten it |
| `Reacceptance.RestartForgets` | agent/protocol/agent/transport/src/lib.rs:603-623 | right after a restart it has forgotten every init |
| `Heartbeats.HeartbeatRoundTrip` | agent/protocol/agent/transport/src/lib.rs:520-553 | a heartbeat is understood exactly for the expected kind and sender, within 30 seconds, without a bar in the address; and then as it was sent |
| `MessageTexts.UnderstandsHeartbeatIff` | agent/protocol/agent/transport/src/lib.rs:520-553 | the exact language: six fields between bars with this kind and sender, both numbers in any spelling, and a time within 30 seconds |
| `Heartbeats.StepKeepsInv` | src/main.rs:799-827 | every step of either loop keeps the lockstep invariant |
| `Heartbeats.Lockstep` | src/main.rs:886-944 | over any connection, at most one ping is outstanding, no pong is refused for its sequence, and each address shown is one the other side sent, or at the Cliente still an earlier connection's |
| `Heartbeats.ActivityCountsExchanges` | src/lib.rs:735-741 | from any counter the Cliente brings along, each side's counter grows by two per completed exchange, modulo 2^64, and the sides are at most one exchange apart |
| `Heartbeats.ExchangeCompletesIff` | src/lib.rs:790-797 | an exchange completes exactly when both heartbeats are fresh on arrival and free of bars; then both sides are ready for the next, and each shows the address the other sent, or none when that was empty |
| `WireHeartbeats.WireStepRefines` | agent/protocol/agent/transport/src/lib.rs:351-399 | every step of the loops, the writers and the arriving bytes is a step of the loops over queues, or nothing they see |
| `WireHeartbeats.LockstepOverTheWire` | agent/protocol/agent/transport/src/lib.rs:454-517 | the lockstep and the counters hold over the bytes, with packets between the heartbeats, writers interleaved and any part arrived |
| `HostRegistry.HostPeerRegistry.AddPending` | src/host_registry.rs:63-79 | one pending slot is added at the end and nothing else changes |
| `HostRegistry.HostPeerRegistry.Bind` | src/host_registry.rs:85-97 | exactly the pending slots with that id get the node id; it reports a change exactly when there is one |
| `HostRegistry.HostPeerRegistry.Remove` | src/host_registry.rs:106-125 | exactly the slots that match the id or the displayed prefix go, the rest keep their order |
| `HostRegistry.HostPeerRegistry.NextFreeVirtualIp` | src/host_registry.rs:150-166 | the search over the set of used octets prints the next octet |
| `HostRegistry.NextOctetIsFirstFree` | src/host_registry.rs:150-166 | the next octet is the least unused one in 2..254, or 254 when there is none |
| `HostRegistry.LeastMissingIsNext` | src/host_registry.rs:150-166 | any octet in 2..254 below which all are taken, and which is free or 254, is the next octet |
| `HostRegistry.FindBound` | src/host_registry.rs:131-144 | a live slot bound to the id, and none only if all slots bound to it are revoked |
| `HostRegistry.PendingOffers` | src/host_registry.rs:131-144 | exactly the ids and secrets of the live unbound slots are offered |
| `HostRegistry.OffersKeepOrder` | src/host_registry.rs:131-144 | and in the order of the registry, which is the order in which their keys are tried |
| `HostRegistry.CandidatesAre` | src/host_registry.rs:131-144 | a device with a live bound slot is offered the first one's secret and no other, any other claimant all open slots in order |
| `HostRegistry.AddressOctet` | src/host_registry.rs:150-166 | the last segment of a printed address reads back as its octet, whatever the prefix looks like |
| `HostRegistry.FreeOctetExists` | src/host_registry.rs:150-166 | with fewer than 253 slots some octet in 2..254 is free |
| `HostRegistry.KeysComeFromOffers` | src/main.rs:684-697 | every candidate key is the key of an offered secret, under that offer's id |
| `HostRegistry.KeyIsTriedIff` | src/main.rs:684-697 | a key is tried under a tag exactly when an offer with that id spells it |
| `HostRegistry.RemovingDisplayedEntryIff` | src/lib.rs:1994-1999 | removing a displayed id removes exactly the slots displayed under it, exactly when that id is not the name of a bound device that describes another pending slot |
| `HostRegistry.RemovingTakesMoreThanDisplayed` | src/host_registry.rs:106-125 | the failing case: a valid name under which a pending slot shown under another id is removed too |
| `RegistryRuns.DialledIsHonest` | agent/protocol/agent/transport/src/lib.rs:751-801 | what `connect` sends names the same id inside and outside |
| `RegistryRuns.TagComesFromOffer` | agent/protocol/agent/transport/src/lib.rs:705-717 | any session's tag, honest or not, is the id of a slot that offered the key its init was sealed with |
| `RegistryRuns.SessionComesFromOffer` | agent/protocol/agent/transport/src/lib.rs:645-647 | an honest session's peer is the id the candidates were looked up for |
| `RegistryRuns.Reachable` | src/main.rs:752-764 | with requests between resolve and bind and between reading the pool and adding a slot, and restarts anywhere, every step keeps all slots apart and the pending bind harmless |
| `RegistryRuns.OneSlotPerDevice` | src/host_registry.rs:85-97 | no node id is ever bound by two slots |
| `RegistryRuns.SlotsKeepTheirTerms` | src/host_registry.rs:63-97 | from its reservation on, a slot's secret, address and date never change, a binding stays until removal, and its id never comes back with other contents |
| `RegistryRuns.BindingNeverChanges` | src/host_registry.rs:85-97 | a bound slot stays exactly as it is until it is removed |
| `RegistryRuns.BoundSecretIsPrivate` | src/host_registry.rs:131-144 | a bound slot's secret is never a candidate for another id |
| `RegistryRuns.ReconnectKeepsTag` | src/main.rs:752-764 | every later successful handshake of a bound device reports the tag it was bound under |
| `RegistryRuns.BindKeepsNodesApartIff` | src/host_registry.rs:85-97 | binding a pending slot keeps ids apart exactly when no slot has that id yet |
| `RegistryRuns.RelabelledInitIsAccepted` | agent/protocol/agent/transport/src/lib.rs:645-653 | from any state, an init under a pending slot's key whose plaintext names another id than its header is a session of the id in the plaintext, tagged with that slot |
| `RegistryRuns.RelabelledInitSplitsDevice` | src/main.rs:752-764 | and when that id has a slot, binding the session gives it a second one |
| `RegistryRuns.AcceptAndBindKeepNodesApartIff` | src/main.rs:752-764 | for any attempt, honest or not, accept and bind leave each id at most one slot exactly when the attempt is refused, or its header's id has a slot, or its plaintext's id has none |
| `Addresses.AddKeepsAddressesIff` | src/host_registry.rs:63-79 | adding a slot keeps addresses distinct exactly when no slot has its address by then |
| `Addresses.AddressesDifferIff` | src/lib.rs:2365-2372 | over every interleaving and whatever prefixes are read, addresses are distinct at all times exactly when no add meets a slot with its address |
| `Addresses.GenerateKeepsAddressesIff` | src/lib.rs:2365-2372 | a request that nothing interrupts gets a new address exactly when an octet in 2..254 is free or no slot is at its prefix with 254 |
| `Addresses.OverlappingGeneratesCollideIff` | src/lib.rs:2365-2372 | of two reads with nothing in between, both addresses are new exactly when the prefixes differ and neither was given |
| `AddressPool.AddKeepsOctetsIff` | src/host_registry.rs:63-79 | adding a slot keeps last octets distinct exactly when the octet read for it is unused at the add |
| `AddressPool.OctetsDifferIff` | src/lib.rs:2365-2372 | over every interleaving, last octets are distinct at all times exactly when every add finds the octet its request read unused |
| `AddressPool.AddressesNeverCollide` | src/host_registry.rs:150-166 | over any run with one unfinished request at a time and fewer than 253 slots at each read, whatever removals, handshakes and restarts come in between, all addresses differ and lie in 2..254 |
| `AddressPool.GenerateKeepsOctetsIff` | src/lib.rs:2365-2372 | a request that nothing interrupts keeps last octets distinct exactly when one is free |
| `AddressPool.RemoveKeepsPool` | src/host_registry.rs:106-125 | removal keeps last octets distinct and in range |
| `AddressPool.OverlappingReadsReserveOneOctet` | src/lib.rs:2365-2372 | two reads with nothing in between reserve one octet, and the later add repeats it |
| `AddressPool.RemovalMovesNextOctetIff` | src/host_registry.rs:106-125 | a removal between two reads makes them differ exactly when it frees an octet below the first |
| `Json.PrintJsonString` | src/lib.rs:2087-2110 | the loop builds the escaped text, quoted |
| `Json.JsonStringRoundTrip` | src/lib.rs:2087-2110 | a reader written from section 7 of RFC 8259 gets every string back exactly |
| `Json.JsonStringIsInert` | src/lib.rs:2087-2110 | no control character, `<`, `>` or `&` is left in the output |
| `PeerRecords.ParseJsonFields` | src/lib.rs:2727-2750 | the loop computes the field map, or nothing, of the recursive specification |
| `FieldTexts.ParsesFieldsIff` | src/lib.rs:2727-2750 | the exact language: a text has these fields exactly when it is braces around nothing, or around members between commas, each a key and a value with white space around them, no escapes; of two with one key the later counts |
| `PeerRecords.ParseOfPrint` | src/lib.rs:2727-2750 | any printed list of fields is read back as its keys and values when all quoted values are clean, and refused as a whole otherwise |
| `PeerRecords.UncleanFieldHasRefusedPiece` | src/lib.rs:2733-2744 | an unclean value, even one cut by commas into several pieces, always leaves a piece the parser refuses |
| `PeerRecords.ReadOfPrint` | src/lib.rs:1131-1194 | reading a printed record yields its fields when all texts are clean, else an invalid store |
| `PeerRecords.RecordOfPrinted` | src/lib.rs:1131-1179 | missing required texts are an incomplete store; empty optional texts come back as absent; never flagged as legacy |
| `PeerRecords.RecordRoundTrip` | src/lib.rs:1131-1194 | write then read gives the same record, not flagged as legacy, exactly for the storable records |
| `PeerRecords.ReadMeans` | src/lib.rs:1131-1179 | for every text, what record it is read as: the four required texts, the stored key before the old secret, approved only if it says so, revoked unless it says otherwise, and the mark of the old format |
| `PeerStores.PeerStore.Open` | src/lib.rs:987-1006 | memory and file after opening: the record read, a legacy file rewritten, an error leaving both alone |
| `PeerStores.PeerStore.Configure` | src/lib.rs:1021-1030 | a raw secret is replaced by its derived key, a derived one kept, in memory and in the file |
| `PeerStores.PeerStore.ConsumeInvitationId` | src/lib.rs:1038-1070 | succeeds exactly for an id without a marker, and always leaves a marker |
| `PeerStores.OpenedIsInStep` | src/lib.rs:987-1006 | after opening, the record in memory is the one the file would yield again |
| `PeerStores.OldFileIsMigrated` | src/lib.rs:987-1006 | every file of the old format opens: its key is derived from the raw secret and can be read again, and the file is written back as the new record; without a word on either it is unapproved and revoked |
| `PeerStores.MigratedFileReopensIff` | src/lib.rs:992-999 | the next start finds the same store exactly when its texts are clean, and the secret is in the file no more |
| `PeerStores.ReopeningRestores` | src/lib.rs:987-1006 | a store in step with a storable record opens to exactly what it was |
| `PeerStores.WrittenReopensIff` | src/lib.rs:1180-1217 | what the store writes opens again to the same record exactly when the record is storable |
| `Invitations.EncodedInvitationFits` | src/lib.rs:2374-2411 | the text of any valid invitation is within the 4096 characters the decoder allows |
| `Invitations.GeneratesIff` | src/lib.rs:2300-2411 | exactly when an invitation is generated, and that it carries this endpoint, secret, device id and time |
| `Invitations.DecodesIff` | src/lib.rs:2413-2445 | exactly which invitations are taken, and which of the others are called expired |
| `Invitations.OnionHostnameIff` | agent/protocol/src/lib.rs:65-74 | an endpoint is 56 characters of `a` to `z` and `2` to `7`, and `.onion` |
| `Invitations.GeneratedInvitationDecodes` | src/lib.rs:2300-2333 | a generated invitation decodes exactly from 60 seconds before its issue until it expires, if the Host's device id is a valid node id; after that it is expired |
| `Agent.AgentState.constructor` | src/lib.rs:1389-1405 | what a starting process makes of the peer file, the markers and the role file |
| `Agent.AgentState.ImportInvitation` | src/lib.rs:2447-2493 | decoding, marking and storing composed: the reply and whole state after every branch, the marker written before the record |
| `Agent.AgentState.Respond` | src/lib.rs:1586-1641 | the dispatch, and the refusal of every other change once a restart is scheduled, peer removal and service state included |
| `Agent.AgentState.Answer` | src/lib.rs:1596-1641 | the same from the text of a body on, parsed by the field parser's loop and the mode parser |
| `AgentRuns.Serve` | src/lib.rs:1409-1460 | answering any calls one after another leaves the agent where their run ends, so what is proved of runs holds of the object |
| `AgentRuns.RequestKeepsInv` | src/lib.rs:1596-1641 | every request keeps: approval in memory is the stored one, and a required restart means a closed gate |
| `AgentRuns.ApprovalMatchesRecord` | src/lib.rs:2652-2685 | at every moment of every run, restarts included, approval and revocation in memory are the stored record's |
| `AgentRuns.GateOpensOnlyByApproval` | src/lib.rs:2671-2676 | within a process a request that opens the gate is an approval, of a stored record, with no restart due or scheduled |
| `AgentRuns.RestartIsRequiredUntilReboot` | src/lib.rs:2174-2204 | no request takes the restart requirement back |
| `AgentRuns.GateStaysClosed` | src/lib.rs:2671-2676 | once a restart is required, no sequence of requests answered one at a time opens the gate in this process |
| `Outcomes.ApprovalOutcome` | src/lib.rs:2652-2685 | an approval or revocation of a stored record stores it, opens the gate exactly when it approves and no restart is required, closes it otherwise, and changes nothing else |
| `Outcomes.RevokedStaysClosed` | src/lib.rs:2671-2676 | after a revocation the gate stays closed over any run of that process until an approval |
| `Outcomes.HandlersTakeTheirSteps` | src/lib.rs:2671-2676 | a handler that runs alone does to gate and flag what its steps in `GateRaces` do one after the other |
| `GateRaces.LeftOpenIff` | src/lib.rs:2671-2676 | over every interleaving of approvals, revocations, changes and resets, the gate is open with a restart required exactly when the last write to it is an approval's that loaded the flag before any change raised it |
| `GateRaces.OnlyOverlapsLeaveOpen` | src/lib.rs:2671-2676 | which takes an approval that loads before a change raises the flag and stores after that change closed the gate |
| `GateRaces.OneApprovalAndOneChange` | src/lib.rs:2191-2194 | of the interleavings of one approval and one change, exactly those with that overlap leave it open |
| `AgentRuns.ScheduledRestartFreezes` | src/lib.rs:1586-1595 | once a restart is scheduled nothing changes any more, not the record, the mode or the gate |
| `Outcomes.RestartOutcome` | src/lib.rs:2687-2711 | a restart is scheduled exactly when one is required, and nothing else changes |
| `Outcomes.ScheduledTurnsAway` | src/lib.rs:1586-1595 | once scheduled, exactly the request for it and queries are not turned away |
| `Outcomes.RebootOutcome` | src/lib.rs:1389-1405 | the whole state a process starts with: record, approval and role as stored, nothing due |
| `Outcomes.RefusalsChangeNothing` | src/lib.rs:1586-1641 | a request that is not answered with success leaves the whole state as it was |
| `Outcomes.ResetOutcome` | src/lib.rs:2206-2238 | a reset leaves no record, no file and a closed gate; markers and a required restart stay |
| `Outcomes.ConfigOutcome` | src/lib.rs:2510-2650 | a configuration is taken exactly when valid; the stored record then has its ids, endpoint, derived key and address, unapproved, unless it is stored already: then nothing changes |
| `Outcomes.AddressOutcome` | src/lib.rs:1880-1937 | when an address is taken, and that only the address changes, in memory, file and display |
| `Outcomes.ModeOutcome` | src/lib.rs:2757-2804 | a mode of the other role drops the peer, closes the gate and requires a restart; any other only renames the mode |
| `Outcomes.ImportOutcome` | src/lib.rs:2447-2493 | every way an import can end, and the record, marker, gate and restart flag of one that succeeds |
| `Outcomes.OtherOutcomes` | src/lib.rs:1596-1641 | generating, service state, peer removal and queries, whole |
| `AgentRuns.HandleWritesOrKeeps` | src/lib.rs:1596-1641 | every request writes the record it then holds, clears file and record together, or touches neither, and forgets no marker |
| `AgentRuns.FileReachable` | src/lib.rs:1180-1217 | over every run the file and the record in memory stay in step while the store is open |
| `AgentRuns.RestartResumes` | src/lib.rs:1389-1405 | a process restart resumes with the record, approval and role it stopped with, if the record is storable at that moment |
| `CleanRuns.AddressSurvivesRestartIff` | src/lib.rs:1880-1937 | a request for an address succeeds exactly when it holds no bar or line break, and then the next start finds the store exactly when the address is clean, and cannot open it otherwise; the placeholder record included |
| `CleanRuns.UncleanAddressIsAccepted` | src/lib.rs:1880-1937 | the failing case, from the text of the request on: the address `<` is answered with success and the store does not open again |
| `ClosedStores.SoundReachable` | src/lib.rs:1596-1641 | over any run with any addresses, an open store is in step with its file and holds checked texts but for the address, and a closed one has a file that does not open |
| `ClosedStores.ClosedForever` | src/lib.rs:1324-1343 | a store that did not open is never open again, whatever requests and restarts follow |
| `ClosedStores.AddressSurvivesAlongRuns` | src/lib.rs:1880-1937 | so at every moment of every run an address request survives the next start exactly when its address is clean |
| `ClosedStores.UncleanAddressClosesForever` | src/lib.rs:1880-1937 | and one with an unclean address, followed by a restart, closes the store for good |
| `CleanRuns.CleanRunsStayReadable` | src/lib.rs:1180-1217 | over any run whose config, import and address requests carry clean addresses, the store stays open, in step with its file and storable |
| `CleanRuns.CleanRunsResume` | src/lib.rs:1389-1405 | and every restart of such a run resumes with the record, approval and role it stopped with |
| `AgentRuns.InvitationsAreUsedOnce` | src/lib.rs:1038-1070 | over every run with resets, mode changes and restarts, each invitation is imported at most once and only inside its window |
| `AgentRuns.GeneratedInvitationImportsOnce` | src/lib.rs:2300-2493 | a generated invitation, taken in its window, imports under any valid name; after that, whatever requests and restarts follow, none imports its id again |
| `ModeTexts.ParseModeAcceptsExactly` | src/lib.rs:2806-2833 | a body means a mode exactly when it is one object with the one member `"mode"`, white space between tokens only, no escapes, and a mode that route knows |
| `Pairing.ImportThenApprove` | src/lib.rs:2652-2685 | import and approval leave the approved record in memory and file, the gate still closed |
| `Pairing.ImportSurvivesRestartIff` | src/lib.rs:987-1006 | the restart after import and approval opens the store, with the approved record, exactly when the chosen address is clean |
| `Pairing.PairedStartsIff` | src/main.rs:845-880 | after import, approval and restart the Cliente dials with the invitation's key, its own name and the Host's id, exactly when the address is clean, the ids differ and the key can be read |
| `Pairing.ConfiguredStartsIff` | src/lib.rs:2510-2641 | a configured and approved Cliente starts with exactly the ids and the key of the request, if the ids differ |
| `RegistryRuns.OfferOfKeyIsSlot` | src/host_registry.rs:131-144 | among all candidates for any name, a key belongs to one slot only |
| `Pairing.DialBindsIff` | src/main.rs:752-764 | with requests between accept and bind, a dial ends in an agreed session and the binding of a pending slot exactly when it is made under that slot's key and a name new to the Host |
| `Pairing.SlotOfInvitation` | src/lib.rs:2365-2372 | at any later time an invitation's slot, if there, is the one its request read the pool for, bound or not |
| `Pairing.PairingCompletesIff` | src/lib.rs:2300-2411 | from the invitation through import, approval, restart and dial to the bind, over any run of the Host in which the slot is still pending at the dial: both sides agree and the slot is the Cliente's exactly when the address is clean, the name is neither the Host's id nor registered, and both derive one key |
| `Pairing.FreshPairingCompletes` | src/main.rs:752-764 | and it does come about: for a new Host and a new name, reading the pool, adding the slot, one dial and the bind are enough |

## Left out

- Sockets, deadlines, SOCKS5, Tor start and readiness, TUN devices, signal handlers: a stop of a loop stands for every way a connection ends.
- XChaCha20-Poly1305, SHA-256, base64, serde and the random generator: the AEAD is symbolic, the digest is any function from text to keys, an invitation's text is its decoded envelope with its length, and random values are parameters.
- File permissions, ownership, `fsync` and failing writes: rename is atomic, the lock is exclusive, and every store write succeeds; a failure there can leave memory and disk apart and is not modelled.
- The registry's own JSON file (`src/host_registry.rs:48-57` and `168-190`): the registry is modelled in memory only, and a restart of the Host finds its slots as they were.
- The connection limit and the thread per connection of the control server: `AgentRuns` answers requests one after another; only the gate and the restart flag are modelled under overlapping handlers (`GateRaces`), with each load and store taking effect at once.
- HTTP reading, routing text, Origin and Host checks, HTML, logs and reply bodies: a request is one atomic step and a reply is its status code.
- Status fields that only decorate the display: the peer's transport label, the remembered remote name and address outside the heartbeat loops.
- The choice of the first gate value and status at process start (`src/main.rs:977-1103`): parameters of a restart.
- Receivers that were dropped while the demultiplexing thread runs: the inboxes grow without bound in the model.
- A write that fails in the middle of a frame: the connection ends there, and no later writer of it is modelled.
- `Nonces.FileNonceAllocator.Allocate`: nonce text with non-ASCII characters of the right byte length is refused in the model, where slicing it in `decode_nonce` would stop the process; the `next` field is only written, as `allocate` does.
- `TransportKeys.StoredKeyReadsBack`: stored keys with non-ASCII text are refused in the model for the same reason.
- `Agreement.HandshakeAgreement`: one Cliente and its key; other Clientes and their keys are part of the network.
- Nonces of two machines with separate files, and a Host address that a user typed in by hand: the code does not decide these.
- A Host started from a single-peer record of its own (`src/main.rs:172-203`): only the Cliente's start is modelled.
- Retry delays, argument parsing, torrc rendering, the user interface, packaging and scripts.
