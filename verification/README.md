# A verified model of hap-rust

hap-rust is a HomeKit controller in Rust with a reference accessory to test it against. This project
models the parts of it whose correctness spans more than one function, in Dafny 4.11, and proves what
they promise:

- **Pairing.** SRP-6a over real big-integer arithmetic, the Pair Setup client and accessory (M1 to M6),
  and the Pair Verify client and accessory (M1 to M4), over real TLV8 bytes. Both halves are here, so
  whole exchanges are composed and agreement is proved.
- **Records and fragments.** The per-direction counters of the BLE, CoAP and accessory sessions, BLE PDU
  fragmentation with a seal per fragment, re-verification and retry after a reconnect, the broadcast
  cipher, batched PDUs over CoAP and Block2 transfer.
- **Sleepy accessories.** The advert task and the poll task that share `last_gsn`, a coalescing watch
  channel and a dedup map, over 16-bit serial numbers.
- **Concurrency gates.** The radio gate between connects and the scan task, and the self-healing IP
  session with its supervisor.
- **Storage.** The locked JSON store, its record codecs, and the controller's snapshot of paired ids.

Concurrent code is a state machine: a run is a sequence of atomic steps of any of the tasks, and a theorem
quantifies over every such sequence. Code that updates fields is a class whose methods are proved equal to
the step functions the theorems speak about; the sessions are tied to theirs by driving the objects over a
whole run, and a store call by showing that its four steps together are the one method. Network, clocks,
randomness and I/O outcomes are parameters, so a theorem holds for every choice of them.

The foreign primitives (SHA-512, HKDF, ChaCha20, Poly1305, Ed25519, X25519) are the fields of
`Primitives.Suite`, known only through the laws in `Primitives.Laws`: open undoes seal, a signature verifies
under its signer's key, the two ends of a key exchange agree, and widths are fixed.
One more, `Primitives.NonceLaw`, is assumed only where it is named: a frame opens under no other nonce.
`Primitives.LawsAreSatisfiable` shows that some suite meets them all.

Where the code and its documentation differ, the model follows the code:

- `PairSetupClient::start` moves to `AwaitingM2` from any state.
- A rejected M2 or M4 leaves the Pair Setup client where it was; an M6 moves it to `Done` before it is read.
- The client takes a reply with no State as one with the right State, and an empty Error as none; the accessory
  requires the State of every message.
- `parse_device_id` accepts a plus sign (`+f`), so only parsing after formatting is claimed to be exact.

Some promises turn out to hold under a condition. Each of these has a theorem that gives the condition both ways:

- A TLV8 list reads back as written if and only if every separator-typed value is shorter than 255 bytes.
- Sealed BLE fragments fit the write size if and only if it is at least 19 bytes.
- A response with a body is read whole if and only if its split is readable (at most 64 fragments, the first
  of at least 5 bytes, a last continuation that is not empty).
- Sleepy events never repeat if and only if the polled instance ids are distinct (`OnceExactlyWhenDistinct`).
- An acknowledged scan pause keeps the radio quiet if and only if the scan task was not in the middle of
  starting a scan (`AckIsQuietExactly`).
- At publication of a session, a subscribed id has been restored on it if and only if it was in the
  supervisor's snapshot (`RestoredExactly`, with the missed case in `LateSubscribeIsMissed`).
- A completed Block2 pull has exactly the reply if and only if the reply fits one datagram or the Block2 option can
  express the block size (`PullIsExactWhenSound`), and undisturbed it completes so if and only if, in addition, the
  reply takes at most 1024 blocks (`AnsweredPull`).
- The refresh flag tells of a config change since the fetch except across the first numbered reconnect
  (`RefreshToldExactly`, with the missed case in `FirstChangeIsMissed`).
- A call on a CoAP session succeeds if and only if its pull and every earlier one completed (`SucceedsExactly`, with
  a lost reply in `LostReply`), since a served call that fails leaves the controller one reply behind.
- If the hash tells its two keys and proofs apart, a Pair Setup run pairs both ends if and only if the two premaster
  secrets agree (`RunExactly`); a wrong setup code ends with a refused M3 and nothing stored (`WrongCode`).
- A request that failed is retried if and only if the link or the session has moved on (`SecureValues.RetriesExactly`,
  `TimedOutIsRetriedExactly`), and one told that its session is dead until a new one comes (`DeadIsRetried`).
- The scan task ends if and only if a scan failed to start or its stream ended (`EndsByFailureExactly`).
- A broadcast written while `save_state` is under way survives it if and only if it is the one being saved
  (`SaveStateLosesExactly`).
- A value read or decrypted is lost to deduplication if and only if its number is a non-zero multiple of 65536 away
  from its record (`SuppressedOnlyByWrap`, with such a run in `WrapLosesEvent`).

The files are one module each, and `dafny verify dfyconfig.toml` checks them all.

## Model

| member | source | states |
|---|---|---|
| `Tlv8.Writer.Push` | crates/hap-tlv8/src/writer.rs:29-50 | Appends exactly the fragmented encoding of one item, a full last fragment being closed by an empty one. |
| `Tlv8.EncodeIsCut` | crates/hap-tlv8/src/writer.rs:29-50 | A value lies on the wire as fragments of a type, a length byte and that many bytes: full ones of 255, then exactly one that is not full. |
| `Tlv8.ParseLoop` | crates/hap-tlv8/src/reader.rs:27-63 | The reading loop computes the recursive parse, with its two truncation errors. |
| `Tlv8.ParsesExactly` | crates/hap-tlv8/src/reader.rs:27-63 | Exactly the sequences of such fragments parse, each to its fragments with every one that follows a full one of its own type merged into it, separators never; anything else is a truncation error. |
| `Tlv8.RoundTripExactly` | crates/hap-tlv8/src/reader.rs:27-63 | What parsing makes of any written list, and that it is the list itself if and only if no separator-typed value reaches 255 bytes. |
| `Tlv8.Get` | crates/hap-tlv8/src/map.rs:46-51 | A lookup finds an item of the type, and none only if there is none. |
| `Tlv8.GetIsFirst` | crates/hap-tlv8/src/map.rs:46-51 | The item found is the first of its type. |
| `Srp.PadRoundTrip` | crates/hap-crypto/src/srp.rs:140-148 | Padding a number to any width and reading it back gives the number. |
| `Srp.PadAt` | crates/hap-crypto/src/srp.rs:140-148 | Padding is big-endian: each byte is the digit of its weight. |
| `Srp.PremasterAgreement` | crates/hap-crypto/src/srp.rs:318-335 | For every modulus, generator and exponents, (B - k g^x)^(a + u x) equals (A v^u)^b modulo N. |
| `Srp.ClientSecretPower` | crates/hap-crypto/src/srp.rs:444-470 | The client's secret is g^(b(a + u x)) modulo N, the subtraction being taken modulo N. |
| `Srp.ServerSecretPower` | crates/hap-crypto/src/srp.rs:318-335 | The server's secret is the same power. |
| `Srp.Agreement` | crates/hap-crypto/src/srp.rs:342-360 | A whole exchange over public values of exactly len(N) bytes: exactly when each side aborts, and otherwise the same key on both sides with both proofs accepted. |
| `Srp.ExchangeValues` | crates/hap-crypto/src/srp.rs:150-360 | Every value of an exchange from the hash and the inputs alone: x from salt, name and password, k, u, A and B, the key of g^(b(a + ux)) on both sides, the one proof the server accepts and the one the client accepts. |
| `Bytes.XorBitsAt` | crates/hap-crypto/src/srp.rs:219-219 | The XOR of the two digests in the proof is taken bit by bit. |
| `Srp.PasswordsApart` | crates/hap-crypto/src/srp.rs:161-173 | Different passwords give different x, unless the hash collides on the inputs at hand. |
| `PairSetup.NormalizeIdempotent` | crates/hap-crypto/src/pair_setup.rs:450-457 | Normalizing keeps the digits of a setup code, and normalizing twice changes nothing. |
| `PairSetup.NormalForm` | crates/hap-crypto/src/pair_setup.rs:450-457 | Eight digits, wherever they stand, become XXX-XX-XXX in order; any other code is used as it is. |
| `PairSetup.DigitsKept` | crates/hap-crypto/src/pair_setup.rs:450-457 | The digits of a code are its bytes 0x30 to 0x39, in order. |
| `PairSetup.PairSetupClient.Start` | crates/hap-crypto/src/pair_setup.rs:186-193 | Writes M1 and moves to `AwaitingM2` from any state. |
| `PairSetup.PairSetupClient.Handle` | crates/hap-crypto/src/pair_setup.rs:207-217 | The state and outcome are those of the state machine for any response in any state. |
| `PairSetup.PairSetupClient.TakeM2` | crates/hap-crypto/src/pair_setup.rs:220-245 | An M2 yields M3 and the session key, or leaves the state alone. |
| `PairSetup.PairSetupClient.TakeM4` | crates/hap-crypto/src/pair_setup.rs:249-299 | An M4 with the right proof yields the signed and sealed M5, or leaves the state alone. |
| `PairSetup.PairSetupClient.TakeM6` | crates/hap-crypto/src/pair_setup.rs:303-357 | An M6 ends the exchange, with the accessory's identity only if its signature verifies. |
| `SetupRuns.HonestRun` | crates/hap-thread-dut/src/pairing.rs:183-336 | An honest run with setup codes equal after normalization leaves the controller with exactly the accessory's id and key and the accessory with exactly the controller's, unless SRP aborts, in which case neither changes. |
| `SetupRuns.RunExactly` | crates/hap-thread-dut/src/pairing.rs:183-336 | A run between any two setup codes, if the hash tells its two keys and two proofs apart: it pairs both ends exactly if the premaster secrets agree, and otherwise ends with M3 refused, the slot empty and no peer stored on either side. |
| `SetupRuns.WrongCode` | crates/hap-thread-dut/src/pairing.rs:205-241 | With codes that differ after normalization and no hash collision on the inputs of the run, the two x differ; and if the premaster secrets differ too, M3 is answered State 4 and Error 2, on which the client fails, and neither end stores a peer. |
| `SetupRuns.ServesM1` | crates/hap-thread-dut/src/pairing.rs:183-202 | The accessory answers M1 with its salt and public value and remembers that SRP server. |
| `SetupRuns.ServesM3` | crates/hap-thread-dut/src/pairing.rs:214-241 | A verifying M3 is answered with the server's proof and the slot holds the session key. |
| `SetupRuns.ServesM5` | crates/hap-thread-dut/src/pairing.rs:252-336 | A signed M5 stores the controller and is answered with the accessory's own signed identity. |
| `SetupRuns.SendsDecrease` | crates/hap-crypto/src/pair_setup.rs:207-217 | Every message the client sends leaves it strictly fewer to send. |
| `SetupRuns.EstablishedIsBacked` | crates/hap-crypto/src/pair_setup.rs:207-357 | Whatever replies it is fed, the client reports a pairing only after one reply fixed a session key, a later one carried the SRP proof of that key, and the last one carried the reported identity, sealed under it and with a signature that verifies, with no restart between. |
| `SetupRuns.SlotFollowsHistory` | crates/hap-thread-dut/src/lib.rs:511-584 | Over every sequence of `/1` requests, the slot holds an SRP server exactly if the last slot-changing request is the M1 that made it, a key exactly if the last two are such an M1 and an M3 verifying against it, and the stored controller is that of the last M5 so backed. |
| `SetupRuns.ServerConsumedOnce` | crates/hap-thread-dut/src/lib.rs:532-554 | Two M3s that each find an SRP server find the servers of two different accepted M1s, the second made after the first was used. |
| `SetupRuns.KeyConsumedOnce` | crates/hap-thread-dut/src/lib.rs:555-581 | Two M5s that each find a session key find the keys two different M3s proved, each against the server it met. |
| `SetupRuns.StoredIsBacked` | crates/hap-thread-dut/src/pairing.rs:183-336 | Whatever `/1` requests it is sent, the accessory changes its stored controller only on an M5 that carries that identity, sealed and signed under a key whose SRP proof an earlier M3 carried, against the server of an accepted M1, with nothing else between. |
| `SetupRuns.M3Refused` | crates/hap-thread-dut/src/pairing.rs:214-241 | An M3 whose proof does not verify is answered with exactly State 4 and Error 2, and no key. |
| `SetupRuns.M3ProofAnswered` | crates/hap-thread-dut/src/pairing.rs:214-241 | One whose proof verifies is answered with the proof over it. |
| `SetupRuns.RefusalFails` | crates/hap-crypto/src/pair_setup.rs:460-468 | A client in any state fails on such a refusal and stays where it is. |
| `SetupAnswers.M1Exactly` | crates/hap-thread-dut/src/pairing.rs:183-202 | Exactly the M1s with State 1 and the Pair Setup method, or none, are accepted; M2 carries the salt and B. |
| `SetupAnswers.M5Enrols` | crates/hap-thread-dut/src/pairing.rs:252-336 | Exactly which controller a well-formed M5 enrols, and State 6 with Error 2 if none. |
| `SetupAnswers.M6Carries` | crates/hap-thread-dut/src/pairing.rs:252-336 | The answer to an M5 that is taken carries the accessory's own identity, signed and sealed under the same key. |
| `SetupAnswers.RepliesExactly` | crates/hap-thread-dut/src/lib.rs:511-584 | The code and the payload every `/1` request gets. |
| `SetupAnswers.ClientTakesM2` | crates/hap-crypto/src/pair_setup.rs:220-245 | A good M2 is taken, with the key and the proof of its salt and B, and answered with M3. |
| `SetupAnswers.ClientRefusesM2` | crates/hap-crypto/src/pair_setup.rs:220-245 | Any other, one with an error, the wrong state, a field missing or a value that aborts SRP, fails and changes nothing. |
| `SetupAnswers.ClientM4Exactly` | crates/hap-crypto/src/pair_setup.rs:249-299 | Exactly an M4 without error that carries the accessory's proof is answered, with the controller's own signed identity; any other changes nothing. |
| `SetupAnswers.ClientM6Exactly` | crates/hap-crypto/src/pair_setup.rs:303-357 | A pairing is reported exactly on an M6 without error that reveals it; every such M6 ends the exchange, revealing or not. |
| `SetupAnswers.ClientIdle` | crates/hap-crypto/src/pair_setup.rs:207-217 | Before it starts and after it ends, the client fails on every message. |
| `PairVerify.PairVerifyClient.Start` | crates/hap-crypto/src/pair_verify.rs:173-180 | Writes M1 with the ephemeral key. |
| `PairVerify.PairVerifyClient.Handle` | crates/hap-crypto/src/pair_verify.rs:193-204 | The progress and outcome are those of the state machine for any response in any state. |
| `PairVerify.PairVerifyClient.TakeM2` | crates/hap-crypto/src/pair_verify.rs:209-262 | An M2 is accepted only with the paired accessory's id and signature, and then yields M3. |
| `PairVerify.PairVerifyClient.BuildM3` | crates/hap-crypto/src/pair_verify.rs:268-295 | Builds the signed and sealed M3, whose contents `VerifyAnswers.M3Sent` gives. |
| `PairVerify.PairVerifyClient.TakeM4` | crates/hap-crypto/src/pair_verify.rs:333-349 | An M4 without error yields the read and write keys of the shared secret; `PairVerify.M4Exactly` says for which responses. |
| `PairVerify.M4Exactly` | crates/hap-crypto/src/pair_verify.rs:333-366 | Awaiting M4, keys come out exactly for a response that parses, carries no error and, if any, State 4; any other fails and changes nothing. |
| `PairVerify.HonestRun` | crates/hap-thread-dut/src/pairing.rs:38-151 | Every honest run ends with both sides holding the same read, write and event keys, derived from the shared secret under the specified labels. |
| `PairVerify.KeysAreBacked` | crates/hap-crypto/src/pair_verify.rs:193-349 | Whatever responses it is fed, the client reports keys only on an M4 without error, after one response carried an ephemeral key and, sealed under the secret shared with it, the stored accessory's id and a signature that verifies over it and the client's own; the keys are those of that very secret, under the specified labels, and there was no restart since. |
| `VerifyAnswers.M1Exactly` | crates/hap-thread-dut/src/pairing.rs:38-84 | Exactly the M1s with State 1 and a 32-byte key open an exchange, and M2 proves the accessory's identity for it. |
| `VerifyAnswers.M3AnsweredExactly` | crates/hap-thread-dut/src/pairing.rs:101-151 | A well-formed M3 signed by the paired controller is answered State 4 and yields the keys; any other is answered State 4 and Error 2 and yields none. |
| `VerifyAnswers.RefusalFails` | crates/hap-crypto/src/pair_verify.rs:333-366 | Whenever the accessory refuses an M3, its own reply makes the client fail with no keys. |
| `VerifyAnswers.M2TakenExactly` | crates/hap-crypto/src/pair_verify.rs:209-262 | Exactly the M2s in which the stored accessory signed this session are taken; any other changes nothing. |
| `VerifyAnswers.M3Sent` | crates/hap-crypto/src/pair_verify.rs:268-295 | The M3 sent proves the controller's own identity under the secret it then holds. |
| `VerifyAnswers.ClientIdle` | crates/hap-crypto/src/pair_verify.rs:193-204 | Before it starts and after it ends, the client fails on every message. |
| `Sessions.BleSession.Seal` | crates/hap-ble/src/session.rs:38-47 | Seals under the send counter, which advances by one. |
| `Sessions.BleSession.Open` | crates/hap-ble/src/session.rs:53-62 | Opens under the receive counter, which advances only on success. |
| `Sessions.AccessorySession.OpenRequest` | crates/hap-thread-dut/src/session.rs:44-49 | Opens with the controller's write key; the counter advances only on success. |
| `Sessions.AccessorySession.SealResponse` | crates/hap-thread-dut/src/session.rs:56-61 | Seals with the controller's read key and advances its counter. |
| `Sessions.AccessorySession.SealEvent` | crates/hap-thread-dut/src/session.rs:69-74 | Seals with the event key and advances its counter. |
| `Sessions.FramesOpenInOrder` | crates/hap-thread-dut/src/session.rs:44-74 | After any interleaving of sends and in-order deliveries in three directions, every delivered frame opened to the plaintext sent in its place, and every counter is the number of frames of its direction modulo 2^64. |
| `Sessions.DriveCoap` | crates/hap-thread/src/session.rs:59-88 | A fresh CoAP session and a fresh accessory session, driven over any run, follow the link of the previous row step by step; with shared keys every request, response and event they deliver is what was sent. |
| `Sessions.DriveBle` | crates/hap-ble/src/session.rs:38-62 | The same for a BLE session and its peer. |
| `Sessions.NonceReuseExactly` | crates/hap-ble/src/session.rs:9-13 | Two frames share a nonce if and only if their numbers agree modulo 2^64. |
| `Primitives.CounterNonceAt` | crates/hap-ble/src/session.rs:9-13 | A nonce is four zero bytes and the counter, least significant byte first. |
| `Sessions.VerifiedTraffic` | crates/hap-crypto/src/pair_verify.rs:324-349 | The keys of any honest Pair Verify run carry any such interleaving. |
| `BlePdu.Fragment` | crates/hap-ble/src/pdu.rs:143-162 | The loop computes the fragment list. |
| `BlePdu.ReassembleLoop` | crates/hap-ble/src/pdu.rs:170-182 | The loop computes reassembly, with its error on a bad continuation. |
| `BlePdu.FragmentRoundTrip` | crates/hap-ble/src/pdu.rs:143-182 | Reassembly undoes fragmentation at every size, and no fragment is over size. |
| `BlePdu.FragmentAt` | crates/hap-ble/src/pdu.rs:143-162 | After the first, every fragment starts with 0x80 and the transaction id and carries something, and only the last is not full. |
| `BlePdu.RequestFieldsExactly` | crates/hap-ble/src/pdu.rs:52-64 | A request's fields can be read back from its PDU if and only if the body fits 65535 bytes. |
| `BlePdu.WriteSealed` | crates/hap-ble/src/pdu.rs:249-256 | Each fragment goes out sealed under the next counter until a write fails, the failed one having spent its counter. |
| `BlePdu.ReadResponse` | crates/hap-ble/src/pdu.rs:257-268 | The read loop computes the specified reading: what was returned, how many replies were used, where the counter stands. |
| `BlePdu.RequestSecure` | crates/hap-ble/src/pdu.rs:239-268 | A whole exchange: what was written, how many fragments were sealed, the result, and both counters. |
| `BlePdu.RequestRecovered` | crates/hap-ble/src/pdu.rs:239-268 | A peer that opens and reassembles the sealed fragments has the exact request, and they fit the write size if and only if it is at least 19. |
| `BlePdu.ResponseRecoveredExactly` | crates/hap-ble/src/pdu.rs:187-268 | A split response with a body is recovered, with all its fragments counted, exactly when the split is readable; otherwise the loop stops early. |
| `BlePdu.BodylessRecovered` | crates/hap-ble/src/pdu.rs:116-137 | A three-byte response is recovered with one read. |
| `BlePdu.ExchangeRecovered` | crates/hap-ble/src/pdu.rs:239-268 | A whole exchange with a peer that holds the same keys and counters: the peer has the exact request, the controller returns exactly the answer, however readably split, and both counters advance by the fragments exchanged. |
| `BlePdu.DecodesExactly` | crates/hap-ble/src/pdu.rs:116-137 | Exactly the PDUs that hold a response, and which one. |
| `BlePdu.ReadFails` | crates/hap-ble/src/pdu.rs:257-268 | A response that does not come whole: a link error for a read that fails, a crypto error for a fragment that does not open, the counter standing after the last one that opened. |
| `BlePdu.ShortContinuationFails` | crates/hap-ble/src/pdu.rs:170-182 | A continuation too short for its header ends the reading as malformed, whatever is still to come. |
| `BlePdu.WriteFails` | crates/hap-ble/src/pdu.rs:249-256 | A write that fails ends the exchange as a link error: its frame is spent and nothing is read. |
| `SecureReads.SecureLink.ReviveIfStale` | crates/hap-ble/src/accessory.rs:114-137 | A no-op while the generation has not moved; otherwise new keys, counters and transaction id, or the error with nothing changed. |
| `SecureReads.RevivesExactly` | crates/hap-ble/src/accessory.rs:114-137 | A session is replaced exactly when the link has moved past it, by the keys just verified, with everything else from zero. |
| `SecureReads.SecureLink.Request` | crates/hap-ble/src/accessory.rs:214-226 | One request under the next transaction id: the frames it seals, which of them reach the link, and the session after it. |
| `SecureReads.SecureLink.Exchange` | crates/hap-ble/src/accessory.rs:210-241 | The retry loop computes the specified run of turns. |
| `SecureReads.SecureLink.ReadCharRaw` | crates/hap-ble/src/accessory.rs:201-241 | A read is that run with its value parameter extracted; an instance id over 16 bits sends nothing. |
| `SecureReads.SecureLink.WriteCharRaw` | crates/hap-ble/src/accessory.rs:249-289 | A write is that run, of the body `SecureValues.WriteIsDelivered` reads back; a non-zero status is an error and is not retried. |
| `SecureReads.CountersNeverReused` | crates/hap-ble/src/session.rs:38-47 | Over every run of requests, failures, retries and re-verifies, every frame is its fragment sealed under its session's key and the nonce of its place in the session, and two frames of one session never share a nonce short of 2^64 frames apart. |
| `SecureReads.RetriesRunOnFreshSessions` | crates/hap-ble/src/accessory.rs:210-241 | At most three requests per call; each retry runs on the session minted right before it, from transaction id 1 and counter 0, given a generation that never goes back. |
| `SecureValues.RetriesExactly` | crates/hap-ble/src/accessory.rs:210-241 | Exactly when a call goes on: a failed request is retried if and only if the link has reconnected and fewer than three were made, and the last one's outcome is the call's. |
| `SecureValues.WriteIsDelivered` | crates/hap-ble/src/pdu.rs:75-86 | However often it is retried, a write whose frames all went out tells a peer opcode 2, this instance id, and a body whose Value is exactly the value written and whose Return-Response is 1. |
| `SecureValues.ReadIsDelivered` | crates/hap-ble/src/accessory.rs:201-226 | A read tells it opcode 3 and this instance id, with no body. |
| `SecureValues.ReadIsAnswered` | crates/hap-ble/src/accessory.rs:201-241 | A read that fails over up to twice and is then answered with a Value returns exactly its bytes. |
| `SecureValues.ValueExactly` | crates/hap-ble/src/pdu.rs:93-98 | The value of a read is that of its first Value item, and there is none otherwise. |
| `SecureValues.TransactionIds` | crates/hap-ble/src/accessory.rs:210-241 | Over every run of requests, failures, retries and re-verifies, the requests of a session are numbered 1, 2 and on, modulo 256. |
| `Broadcast.BuildMacData` | crates/hap-crypto/src/broadcast.rs:150-163 | The padding loops build the MAC input of section 2.8 of RFC 8439. |
| `Broadcast.MacDataAligned` | crates/hap-crypto/src/broadcast.rs:150-163 | The MAC input is a whole number of 16-byte blocks. |
| `Broadcast.MacDataInjective` | crates/hap-crypto/src/broadcast.rs:150-163 | No two pairs of associated data and ciphertext share a MAC input. |
| `Broadcast.Cipher.TakePolyKey` | crates/hap-crypto/src/broadcast.rs:138-146 | The one-time key is the first 32 keystream bytes, and the cipher is left at block 1. |
| `Broadcast.Seal` | crates/hap-crypto/src/broadcast.rs:59-83 | Computes the specified sealing. |
| `Broadcast.Open` | crates/hap-crypto/src/broadcast.rs:92-130 | Computes the specified opening, failing on short input or a wrong tag. |
| `Broadcast.OpensExactlyTheSealed` | crates/hap-crypto/src/broadcast.rs:59-130 | `open` yields a plaintext if and only if it is given what `seal` makes of it under that key, number and id. |
| `Broadcast.SealedExactly` | crates/hap-crypto/src/broadcast.rs:59-83 | What `seal` makes, from the primitives alone: nonce, keystream positions, one-time key, padded MAC input and four-byte tag. |
| `SleepyEvents.NewerExactly` | crates/hap-ble/src/accessory.rs:23-26 | Serial order on 16 bits, for all unwrapped numbers, and that it is the true order within 32767. |
| `SleepyEvents.DedupFollows` | crates/hap-ble/src/accessory.rs:185-195 | The 16-bit map follows the run of calls on unwrapped numbers. |
| `SleepyEvents.RecordIsNewest` | crates/hap-ble/src/accessory.rs:185-195 | While every call is within 32767 of its record, the record is the newest number emitted, no call lowers it, and a call is suppressed exactly when its number equals it. |
| `SleepyEvents.SuppressedExactly` | crates/hap-ble/src/accessory.rs:185-195 | With no window assumed: suppressed if and only if the numbers differ by a multiple of 65536, and exactly when the record moves. |
| `SleepyEvents.SearchCandidates` | crates/hap-ble/src/accessory.rs:855-892 | The candidate loop computes the first candidate that answers, if newer. |
| `SleepyEvents.CandidatesCover` | crates/hap-ble/src/accessory.rs:858-860 | The candidates are exactly the numbers 0 to 100 ahead, across wraparound. |
| `SleepyEvents.CandidatesInOrder` | crates/hap-ble/src/accessory.rs:858-860 | They are tried in order: the next number, the current one, then two ahead and on. |
| `SleepyEvents.FirstAnswerDecides` | crates/hap-ble/src/accessory.rs:861-892 | With nothing assumed of the cipher: the first candidate that answers decides, a stale one ending the search. |
| `SleepyEvents.SearchExactly` | crates/hap-ble/src/accessory.rs:855-892 | In any order of candidates, a payload that opens under one number is accepted exactly when well formed and 1 to 100 ahead. |
| `SleepyEvents.SearchAcceptsWindow` | crates/hap-ble/src/accessory.rs:855-892 | The same for the code's own candidates. |
| `SleepyTasks.Watch.DedupShouldEmit` | crates/hap-ble/src/accessory.rs:185-195 | The map and the verdict after a dedup call. |
| `SleepyTasks.Watch.Receive` | crates/hap-ble/src/accessory.rs:808-854 | What an advert does to `last_gsn` and where the advert task goes next. |
| `SleepyTasks.Watch.ContinueAdvert` | crates/hap-ble/src/accessory.rs:841-892 | Sending a bump, searching a broadcast, and reporting it, one atomic step each. |
| `SleepyTasks.Watch.ContinuePoll` | crates/hap-ble/src/accessory.rs:762-798 | Waking on the latest bump, reading each target, and reporting it, one atomic step each. |
| `SleepyTasks.BroadcastAcceptedExactly` | crates/hap-ble/src/accessory.rs:855-892 | A sealed broadcast moves `last_gsn` to its number exactly when well formed and 1 to 100 ahead, and changes nothing otherwise. |
| `SleepyReads.BroadcastReported` | crates/hap-ble/src/accessory.rs:855-892 | An accepted broadcast moves `last_gsn`, and gives an event of accessory 1 exactly if bytes 2 and 3 name a known characteristic, bytes 4 to 11 decode and the pair was not the last reported. |
| `SleepyReads.ForeignIsIgnored` | crates/hap-ble/src/accessory.rs:808-854 | An advert of another device changes nothing. |
| `SleepyRuns.EachEventOnce` | crates/hap-ble/src/accessory.rs:754-897 | In every interleaving with distinct poll targets, no event repeats at an unwrapped number, and `last_gsn` only moves forward, each accepted advert to a new number. |
| `SleepyRuns.OnceExactlyWhenDistinct` | crates/hap-ble/src/accessory.rs:734-739 | Events never repeat, whatever is read and broadcast, if and only if the polled instance ids are distinct. |
| `SleepyRuns.DuplicateTargetRepeats` | crates/hap-ble/src/accessory.rs:770-797 | For any list with a repeated instance id, a run in which an event repeats. |
| `SleepyRuns.SuppressedOnlyByWrap` | crates/hap-ble/src/accessory.rs:776-887 | In a run, a dedup call is suppressed exactly when the record is a different number, a multiple of 65536 away. |
| `SleepyRuns.NothingLostWithinWindow` | crates/hap-ble/src/accessory.rs:754-897 | While calls stay within the window, the events are exactly the decoded values read or decrypted, one per dedup call, in order. |
| `SleepyRuns.WrapLosesEvent` | crates/hap-ble/src/accessory.rs:185-195 | A run in which the value read at number 65537 is lost against the record of number 1. |
| `SleepyRuns.PollsFollowBumps` | crates/hap-ble/src/accessory.rs:754-798 | Polled bumps are an in-order subsequence of the accepted ones, and an idle poll task with nothing unseen has polled the last, unless its send is still to come. |
| `SleepyRuns.EveryBumpIsPolled` | crates/hap-ble/src/accessory.rs:815-842 | Every accepted bump is polled, by itself or by a later round, once the advert task has taken one step and the poll task two per target and one more, whatever happens between. |
| `SleepyReads.RoundsReadEveryTarget` | crates/hap-ble/src/accessory.rs:762-798 | In every run, whatever each read and each decoding gives, read number k is of target k modulo their number, and the rounds started account for every read but those the last has still to come: a round reads every target once, in order. |
| `ScanGate.Gate.Pause` | crates/hap-ble/src/scan_gate.rs:42-83 | Every step of a pauser, with timeouts, cancellation and the guard's drop, is the one they speak of. |
| `ScanGate.Gate.Scan` | crates/hap-ble/src/bluest_gatt.rs:399-463 | Every step of the scan task is the one the run theorems below speak of. |
| `ScanGate.PauseFlagIsOwned` | crates/hap-ble/src/scan_gate.rs:42-83 | In every run, the flag is up exactly while one pauser owns it; a scan starting or live while paused has an unseen change to notice; a scan held off while not paused has one to wake it. |
| `ScanGate.AckIsQuietExactly` | crates/hap-ble/src/scan_gate.rs:42-59 | After an acknowledged pause, no scan is live until that guard drops if and only if the scan task was not mid-start. |
| `ScanGate.EndsByFailureExactly` | crates/hap-ble/src/bluest_gatt.rs:399-463 | In every run, the scan task is over, or about to be, if and only if a scan failed to start or a stream ended. |
| `ScanGate.EndingEnds` | crates/hap-ble/src/bluest_gatt.rs:455-461 | A task about to be over is so after two steps, the scan reported gone, and stays so. |
| `ScanGate.ScanResumes` | crates/hap-ble/src/bluest_gatt.rs:399-463 | From every reachable state with the pause flag down and no end in sight, five steps of the scan task leave the scan live and reported so, a held-off one waking by itself. |
| `ScanGate.PauseComesThrough` | crates/hap-ble/src/scan_gate.rs:42-59 | A pauser that finds the lock free holds its guard after its own moves alone, acknowledged or by the timeout. |
| `ScanGate.PauseEnds` | crates/hap-ble/src/scan_gate.rs:75-83 | Dropping the guard, or cancelling the wait for the answer, lowers the flag, tells the scan and frees the lock. |
| `ScanGate.WaiterGoes` | crates/hap-ble/src/scan_gate.rs:42-47 | Cancelling the wait for the lock leaves everything as it was. |
| `Supervisor.Connection.Supervise` | crates/hap-controller/src/handle.rs:192-258 | Every step of the supervisor: death, reconnect, snapshot, resubscription, publication. |
| `Supervisor.Connection.Foreground` | crates/hap-controller/src/reconnect.rs:136-194 | Every step of a foreground request is the one the run theorems below speak of. |
| `Supervisor.Connection.RecordSubscription` | crates/hap-controller/src/handle.rs:451-474 | Only an answered `subscribe` or `unsubscribe` changes the ids to restore. |
| `Supervisor.Connection.TakeRefresh` | crates/hap-controller/src/handle.rs:296-300 | Taking a pending refresh clears it. |
| `Supervisor.AtMostTwoSessions` | crates/hap-controller/src/reconnect.rs:136-194 | In every run, a request is sent to at most two sessions, the second minted after the first. |
| `SupervisorRuns.DeadIsRetried` | crates/hap-controller/src/reconnect.rs:151-195 | In every run, a request told that its session is dead waits, sent once, until it gives up, and then is over, or wakes to another session, and then is sent to that one and nowhere else ever. |
| `SupervisorRuns.TimedOutIsRetriedExactly` | crates/hap-controller/src/reconnect.rs:156-165 | A request that timed out is sent again, to the current session, if and only if that has moved. |
| `SupervisorRuns.AnsweredIsOver` | crates/hap-controller/src/reconnect.rs:143-155 | A request is first sent to the current session, and one that is answered is sent nowhere else. |
| `SupervisorRuns.DeadIsReplaced` | crates/hap-controller/src/handle.rs:192-258 | In every run, a session that dies is replaced once a reconnect succeeds, after any failed ones, with every id to restore subscribed on the new one before it is published. |
| `Supervisor.RestoredBeforeUse` | crates/hap-controller/src/handle.rs:240-258 | In every run, before a foreground request reaches a session after the first, every id of the snapshot has had its subscribe issued on it. |
| `Supervisor.RestoredExactly` | crates/hap-controller/src/handle.rs:240-258 | At publication, an id has been restored if and only if the snapshot had it. |
| `Supervisor.SubscribedWasAnswered` | crates/hap-controller/src/handle.rs:451-459 | In every run, every id to restore is that of a subscribe that was sent and answered. |
| `SupervisorRuns.SubscribedIsLastRecorded` | crates/hap-controller/src/handle.rs:451-474 | In every run, the ids to restore are exactly those whose last recorded request is a subscribe. |
| `SupervisorRuns.AnsweredExactly` | crates/hap-controller/src/handle.rs:451-474 | Exactly a good answer to a subscribe or an unsubscribe waits to be recorded. |
| `Supervisor.LateSubscribeIsMissed` | crates/hap-controller/src/handle.rs:451-459 | A run in which a subscribe answered on the first session, and recorded after the next one's snapshot, is not restored on it. |
| `Supervisor.RefreshExactly` | crates/hap-controller/src/handle.rs:231-238 | A refresh is due if and only if two config numbers seen at reconnects, from the last one before the fetch on, differ. |
| `Supervisor.RefreshToldExactly` | crates/hap-controller/src/handle.rs:193-238 | Exactly when that tells of every change since the tree was fetched: unless the first reconnect brought a new number and no later one another. |
| `Supervisor.FirstChangeIsMissed` | crates/hap-controller/src/handle.rs:193-238 | A change across the first reconnect is not told. |
| `Hex.EncodeHexLoop` | crates/hap-pairing/src/store.rs:321-329 | The loop computes the lower-case hex text. |
| `Hex.HexDigitsOf` | crates/hap-pairing/src/store.rs:321-329 | Each byte is two lower-case digits, the high one first. |
| `Hex.DigitValues` | crates/hap-pairing/src/store.rs:352-359 | The value of every digit of either case. |
| `Hex.DecodeKey32` | crates/hap-pairing/src/store.rs:337-359 | Decodes exactly the 64-digit spellings, of either case, each to the bytes it spells. |
| `Hex.KeySurvives` | crates/hap-pairing/src/store.rs:321-359 | A key survives encoding and decoding. |
| `Hex.ParseDeviceId` | crates/hap-pairing/src/store.rs:372-383 | Accepts exactly six parseable parts. |
| `Hex.PartExactly` | crates/hap-pairing/src/store.rs:372-383 | A part is read exactly if it is two digits, or a plus sign and one, of either case, and to that value. |
| `Hex.DeviceIdSurvives` | crates/hap-pairing/src/store.rs:363-383 | A device id survives formatting and parsing. |
| `Hex.DeviceIdText` | crates/hap-pairing/src/store.rs:363-368 | A device id is its bytes' pairs of digits with colons between. |
| `Store.AccessoryFromRecord` | crates/hap-pairing/src/store.rs:285-318 | The decoded accessory, including version 1 records, or the error. |
| `Store.RecordReadsExactly` | crates/hap-pairing/src/store.rs:285-318 | A record decodes to exactly the accessory it spells out, one of version 1 to its address; any other is malformed. |
| `Store.VersionsExactly` | crates/hap-pairing/src/store.rs:138-250 | Exactly the documents of version none, 1 or 2 are read, every write leaves version 2, and exactly when a call succeeds. |
| `Store.AccessorySurvives` | crates/hap-pairing/src/store.rs:263-318 | Every accessory survives being written and read back. |
| `Store.ControllerSurvives` | crates/hap-pairing/src/store.rs:251-261 | So does the controller's identity. |
| `Store.LoadController` | crates/hap-pairing/src/store.rs:387-393 | Loads the identity, none, or the error. |
| `Store.LoadPairings` | crates/hap-pairing/src/store.rs:402-408 | Loads every record in order or fails as a whole. |
| `Store.Edit` | crates/hap-pairing/src/store.rs:395-446 | The document after each operation, and that only a broadcast update of no BLE record writes nothing. |
| `Store.JsonFileStore.Execute` | crates/hap-pairing/src/store.rs:395-446 | One operation against the disk; any failure leaves it unchanged. |
| `Store.UpsertKeeps` | crates/hap-pairing/src/store.rs:410-420 | A save sets its own id, keeps every other and keeps ids unique. |
| `Store.WithoutKeeps` | crates/hap-pairing/src/store.rs:422-427 | A delete clears its own id, keeps every other and keeps ids unique. |
| `Store.ApplyIsCellwise` | crates/hap-pairing/src/store.rs:395-446 | Every operation keeps the document loadable and acts on each id's accessory on its own. |
| `StoreRuns.EveryRunIsSequential` | crates/hap-pairing/src/store.rs:395-446 | In every interleaving, with any I/O failures, the disk is what the effective calls, one at a time, would leave, and a call took effect exactly if it returned success. |
| `StoreRuns.OneCallIsExec` | crates/hap-pairing/src/store.rs:395-446 | The four steps of one call, with nothing between them, are one operation of the store object: the same disk and outcome. |
| `StoreRuns.OrderIsRealTime` | crates/hap-pairing/src/store.rs:138-143 | A call that returned before another started comes before it in that order. |
| `StoreRuns.StoreIsAMap` | crates/hap-pairing/src/store.rs:395-446 | From a loadable document, every interleaving leaves one with unique ids, in which each id's accessory is what the effective calls make of it: no update is lost and no other record is touched. |
| `Controller.LoadStoredLoop` | crates/hap-controller/src/controller.rs:893-912 | Finds by name in any case, else by BLE device id, else reports it unknown. |
| `ControllerCalls.FindsNamed` | crates/hap-controller/src/controller.rs:893-912 | The first accessory of that name, in any ASCII case, is found, whatever else matches. |
| `ControllerCalls.FindsUnnamed` | crates/hap-controller/src/controller.rs:893-912 | Without one, an id that spells a device id finds the first BLE accessory with it, and any other none. |
| `ControllerCalls.SameButForCase` | crates/hap-controller/src/controller.rs:893-912 | Case is ignored for ASCII letters and for nothing else. |
| `Controller.HapController.Open` | crates/hap-controller/src/controller.rs:122-147 | Loads the identity or saves a fresh one, and lists the store; any failure yields no controller. |
| `Controller.IdentityPersists` | crates/hap-controller/src/controller.rs:122-147 | Opened again after any calls, a controller has the identity it had. |
| `Controller.HapController.Invoke` | crates/hap-controller/src/controller.rs:345-819 | Pair, remove, forget and save-state, with every failure and background updates between load and write. |
| `Controller.HapController.Delete` | crates/hap-controller/src/controller.rs:669-672 | The snapshot drops an id only once the store has. |
| `Controller.CallChangesOneId` | crates/hap-controller/src/controller.rs:640-712 | A success adds or removes exactly one id; everything else leaves the snapshot alone. |
| `ControllerCalls.SucceedsExactly` | crates/hap-controller/src/controller.rs:345-819 | Exactly when each call succeeds. |
| `ControllerCalls.StoresExactly` | crates/hap-controller/src/controller.rs:345-819 | What each call makes of the accessory under every id: only the one it names, and only if it succeeds. |
| `Controller.SaveStateIsAtomic` | crates/hap-controller/src/controller.rs:804-819 | A `save_state` that found its record leaves exactly what it would if everything a watch writes between its load and its write had come first. |
| `Controller.SaveStateLosesExactly` | crates/hap-controller/src/controller.rs:804-819 | It loses exactly the written updates of its own accessory that carry another broadcast than the one it saves, and leaves every other accessory as the watch left it. |
| `Controller.PairedAgreesWithStore` | crates/hap-controller/src/controller.rs:122-819 | From opening on, after every sequence of calls, whatever fails and whatever a watch writes meanwhile, the snapshot lists exactly the ids in the store, each once. |
| `ThreadPdu.DecodeRequests` | crates/hap-thread-dut/src/pdu.rs:41-69 | The loop computes the batch decoding, with its truncation error. |
| `ThreadPdu.DecodesExactly` | crates/hap-thread-dut/src/pdu.rs:41-69 | A payload decodes to a batch if and only if it is that batch encoded, under any control bytes. |
| `ThreadPdu.Layout` | crates/hap-thread/src/pdu.rs:66-86 | Where each field of a request and of a response lies. |
| `ThreadPdu.DecodeAll` | crates/hap-thread/src/pdu.rs:240-255 | The controller's loop computes the reply decoding, with its errors. |
| `ThreadPdu.RepliesDecodeExactly` | crates/hap-thread/src/pdu.rs:240-255 | Encoded answers are read back if and only if their transaction ids count up with their positions. |
| `ThreadPdu.RepliesReadExactly` | crates/hap-thread/src/pdu.rs:240-255 | The controller takes exactly the payloads that are concatenated responses in the order of its batch. |
| `LightBulb.AnswersAt` | crates/hap-thread-dut/src/lib.rs:652-655 | Answer i is the answer in the state the first i requests left. |
| `LightBulb.OnIsLastWritten` | crates/hap-thread-dut/src/lib.rs:678-687 | After a batch, `On` is what its last valid write set. |
| `LightBulb.SubscribedIsLastAsked` | crates/hap-thread-dut/src/lib.rs:688-701 | After a batch, an id is subscribed exactly if the batch's last word on it says so. |
| `LightBulb.StatusExactly` | crates/hap-thread-dut/src/lib.rs:664-704 | Success is reported for exactly the requests carried out; any other status changes nothing, and the two errors are told apart by the instance id. |
| `LightBulb.ReadAnswered` | crates/hap-thread-dut/src/lib.rs:674-677 | A read is answered with the value of `On` after the requests before it. |
| `LightBulb.BodiesExactly` | crates/hap-thread-dut/src/lib.rs:664-704 | The bodies of the two reads, the database and the bulb's value, and that nothing else has one. |
| `LightBulb.ReplyDecodesExactly` | crates/hap-thread-dut/src/lib.rs:637-660 | The reply decodes to one answer per request, with its transaction id and in order, if and only if the batch is numbered as the controller numbers it. |
| `BlockTransfer.BlockServer.SendBlock` | crates/hap-thread-dut/src/lib.rs:437-468 | Sends the block, with its option only if the size can be expressed, and clears the cache after the last. |
| `BlockTransfer.BlockServer.SendResponse` | crates/hap-thread-dut/src/lib.rs:340-374 | Sends the reply whole, or its first block with the reply cached. |
| `BlockTransfer.BlockServer.ServeCachedBlock` | crates/hap-thread-dut/src/lib.rs:403-432 | Answers a continuation only for the peer whose reply is cached. |
| `BlockTransfer.RespondsExactly` | crates/hap-thread-dut/src/lib.rs:340-374 | A reply that fits goes out whole and unmarked and touches no cached one; a longer one takes the cache. |
| `BlockTransfer.ContinuesExactly` | crates/hap-thread-dut/src/lib.rs:403-468 | A continuation is answered exactly for the peer whose reply is cached, and the cache goes with its last block. |
| `BlockTransfer.PullIsExactWhenSound` | crates/hap-thread/src/coap.rs:412-472 | As long as continuations are answered from this reply or not at all, a completed pull has exactly the reply if and only if it fits one datagram or the block size can be expressed; otherwise it is the first block alone. |
| `BlockTransfer.AnsweredPull` | crates/hap-thread/src/coap.rs:432-460 | With every continuation answered: the whole reply, the first block alone, or the 1024-block error, and exactly when each. |
| `ThreadAccessory.ReferenceAccessory.AnswerSetup` | crates/hap-thread-dut/src/lib.rs:511-584 | One `/1` request against the setup slot and the stored controller. |
| `ThreadAccessory.ReferenceAccessory.AnswerM1` | crates/hap-thread-dut/src/lib.rs:520-531 | An accepted M1 fills the slot; a rejected one leaves it. |
| `ThreadAccessory.ReferenceAccessory.AnswerM3` | crates/hap-thread-dut/src/lib.rs:532-554 | An M3 takes the slot first, and refills it only if it verifies. |
| `ThreadAccessory.ReferenceAccessory.AnswerM5` | crates/hap-thread-dut/src/lib.rs:555-581 | An M5 takes the slot, and stores the controller only if it verifies. |
| `ThreadAccessory.ReferenceAccessory.AnswerVerify` | crates/hap-thread-dut/src/lib.rs:587-633 | One `/2` request; a new session starts with its counters at zero. |
| `ThreadAccessory.SlotIsLastOpened` | crates/hap-thread-dut/src/lib.rs:587-633 | The slot holds an exchange if and only if it is that of the last accepted M1, with no M3 since. |
| `ThreadAccessory.ExchangeConsumedOnce` | crates/hap-thread-dut/src/lib.rs:606-628 | Two M3s that each find an exchange find those of two different accepted M1s, the second opened after the first was used. |
| `ThreadAccessory.SessionIsVerified` | crates/hap-thread-dut/src/lib.rs:606-628 | A session changes only on an M3 whose sealed part carries the id of the controller then paired and its signature over the exchange of the last accepted M1, with no other M3 between; its keys are that exchange's and its counters start at zero. |
| `ThreadAnswers.VerifyRepliesExactly` | crates/hap-thread-dut/src/lib.rs:587-633 | The code, the payload and the new state for every `/2` request. |
| `ThreadAccessory.ReferenceAccessory.HandleChar` | crates/hap-thread-dut/src/lib.rs:664-704 | One request's encoded answer and its effect on the bulb. |
| `ThreadAccessory.ReferenceAccessory.HandleBatch` | crates/hap-thread-dut/src/lib.rs:652-655 | The loop's replies and final state are those of the batch. |
| `ThreadAccessory.ReferenceAccessory.SecurePdu` | crates/hap-thread-dut/src/lib.rs:637-660 | What a sealed payload does to the counters and the bulb, in each of its outcomes. |
| `ThreadAnswers.SecureRefusals` | crates/hap-thread-dut/src/lib.rs:637-660 | A payload that does not open is unauthorized and costs nothing; one that does not decode is bad and has spent a receive counter. |
| `ThreadAccessory.ReferenceAccessory.ReceiveDatagram` | crates/hap-thread-dut/src/lib.rs:297-335 | One datagram against the whole accessory: a continuation is served from the cache, anything else runs its handler. |
| `ThreadAnswers.ContinuationExactly` | crates/hap-thread-dut/src/lib.rs:297-335 | Exactly a datagram that asks for a block after the first, of an accessory that answers in blocks, is served from the cache; any other runs its handler once, even one that asks for block 0. |
| `ThreadAccessory.ReferenceAccessory.HandlePath` | crates/hap-thread-dut/src/lib.rs:493-507 | The handler of each path. |
| `ThreadAnswers.PlainPaths` | crates/hap-thread-dut/src/lib.rs:493-507 | Identify is acknowledged, an unknown path is not found, and `/` without a session is unauthorized. |
| `ThreadAnswers.SetupPath` | crates/hap-thread-dut/src/lib.rs:493-507 | `/1` answers under the code its handler gives. |
| `ThreadAnswers.PathsApart` | crates/hap-thread-dut/src/lib.rs:493-507 | Each path touches only its own part of the accessory. |
| `ThreadAccessory.PullLeavesOthersAlone` | crates/hap-thread-dut/src/lib.rs:317-327 | After a pull, the accessory is, but for its cache, what other peers' datagrams alone would have made of it. |
| `ThreadAccessory.BatchExchange` | crates/hap-thread-dut/src/lib.rs:297-335 | A batch sealed, served and pulled with any datagrams of other peers between: its handler runs once, and a completed pull has exactly the sealed reply, which opens and decodes to one answer per request in order, if and only if the reply goes out whole or its block size can be expressed. |
| `ThreadAccessory.UndisturbedExchange` | crates/hap-thread-dut/src/lib.rs:297-335 | Undisturbed, the accessory ends as the batch leaves it with each counter one further, and the pull has the whole reply exactly if it goes out whole or in at most 1024 blocks of an expressible size. |
| `ThreadAccessory.PullAll` | crates/hap-thread/src/coap.rs:412-472 | The controller's loop computes the specified transfer against the accessory object. |
| `ThreadAccessory.PostSecure` | crates/hap-thread/src/accessory.rs:45-54 | Seal, post, pull and open on the session objects are the specified post: one send counter spent, and one receive counter exactly on success. |
| `ThreadAnswers.PostedExactly` | crates/hap-thread/src/coap.rs:81-92 | Only a 2.04 is opened, 4.04 means the session has expired, and only what opens moves the counter. |
| `ThreadAccessory.ExchangeBatch` | crates/hap-thread/src/accessory.rs:116-130 | A batch on the session objects of both ends, with other peers between, when the reply goes out whole or its block size can be expressed: exactly one answer per request or a failure, and, undisturbed and within 1024 blocks, a success that leaves the sessions in step. |
| `ThreadRuns.ReplyNonceExactly` | crates/hap-thread/src/accessory.rs:45-54 | In every run of calls from sessions in step, every call is served, and its reply is sealed under the nonce the controller opens it with if and only if the calls that failed before it are a multiple of 2^64, that is, below that many, none. |
| `ThreadRuns.SucceedsExactly` | crates/hap-thread/src/accessory.rs:45-54 | If a frame opens under no other nonce than its own: a call succeeds, with the answers to its batch, if and only if its pull and every pull before it on the session completed. |
| `ThreadRuns.LostReply` | crates/hap-thread-dut/src/lib.rs:340-374 | A run in which another peer's Pair Verify takes over the cache during a pull: the call fails, and the sessions are one reply apart. |

## Left out

- The connected GATT `subscribe` event path: it bypasses deduplication and promises only best effort.
- More than one armed sleepy watch, or two scan tasks: the code documents one of each, and the theorems assume it.
- The broadcast channels that carry events to callers may drop for a lagging receiver; events are counted when sent, a dedup verdict and its send being one step.
- Cancelling a store call while its rename is in flight: a store call runs to its own success or failure, and renames are atomic.
- JSON text, sockets, mDNS, timers and their durations: a document is a value, and a timeout is a step that may come at any wait.
- CoAP message ids, tokens, acknowledgements, retransmission and the slow-response mode: a datagram is received once, and a response reaches its request.
- ThreadAccessory.BatchExchange: a second request of the same peer in the middle of a pull is not covered, since the controller sends one request at a time; and a block number up to 1024 is taken to fit an option whose size does.
- Events pushed by the accessory are in the session model (`DriveCoap`) but not in the datagram model.
- ThreadRuns.SucceedsExactly: that a frame opens only under its own nonce is a hypothesis, since a 16-byte tag promises it but for chance; and other peers are taken to leave the session alone, neither using it nor ending a Pair Verify.
- SetupRuns.WrongCode: that the hash does not collide on the inputs of the run is a hypothesis (of SetupRuns.RunExactly too), and so is that the premaster secrets of the two different x differ, since neither holds for every hash and every pair of exponents.
- SleepyEvents.SearchExactly: that a payload opens under only one state number is a hypothesis, since a four-byte tag cannot promise it.
- SecureReads.RetriesRunOnFreshSessions: that the link generation never goes back is a hypothesis, as the GATT interface documents.
- The HTTP and record layer of the IP transport, attribute databases, value formats and floating-point coercion, setup-payload matching, and the generated type tables: large, and they would add only easy members.
- Removing and listing pairings on the accessory: one request and one reply each, modelled only by their outcome.
