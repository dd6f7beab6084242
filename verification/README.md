# TLS stack: a verified model

This project models the protocol logic of a TLS 1.0 to 1.3 stack written in Go (a fork of crypto/tls with
a kernel TLS hand-off) and proves what that logic promises: that records sealed by one side open on the
other, that handshake messages survive fragmentation and encoding, that two honest TLS 1.3 peers agree on
every secret, and that the shared caches, counters and keys behave under every interleaving.

Cryptographic primitives are function values. The only facts used about them are their inverse and size
laws: opening undoes sealing, CBC decryption undoes encryption, a key stream xored twice vanishes, ECDH on
honest keys commutes, a signature verifies under the certificate of its key, and digests have a fixed
size. Where two computations must agree, they agree for any such functions. Beside every agreement there is a law that writes
the result out independently: records and hellos octet by octet, secrets by the diagram of RFC 8446, and
what a side accepts from an arbitrary peer as an equivalence.

Code that changes state in the original is modelled by classes and methods with loops; each is held to a
function of the old state, and the theorems are about those functions or about runs of a state machine
whose steps are the sections of code that execute without interruption.

| files | subject |
|---|---|
| `Bytes`, `Wire` | octets, big-endian integers, length-prefixed vectors and lists |
| `Padding`, `RecordLayer`, `RoundTrip`, `RecordOctets`, `HalfConn`, `Nonces` | one direction of a connection: sealing, opening, sequence numbers, nonces, and the records octet by octet |
| `RecordWriter`, `RecordReader`, `Delivery`, `Reassembly`, `DataReader`, `ConnReader`, `EndToEnd`, `ConnRun` | fragmentation, record sizes, the read loop, handshake reassembly, application data |
| `KeyUpdate`, `CloseInterlock`, `CertCache` | concurrent and two-party protocols as state machines |
| `HelloParts`, `Extensions`, `ClientHello`, `ClientHelloCodec`, `ServerHello`, `Binders`, `HelloLayout`, `HelloMarshal`, `HelloBodies` | the hello messages, their layout, and in-place binder patching |
| `KeySchedule`, `Handshake13`, `HandshakeObjects`, `HandshakeRun`, `Agreement13`, `Schedule13`, `Channel13`, `Retry13` | the TLS 1.3 handshake between two honest parties |
| `Authentication13`, `Negotiation13` | what either side checks, against any peer, and what a server settles on |
| `LruCache`, `LruHistory`, `TicketKeys`, `Tickets` | the session cache, ticket keys and tickets |
| `Prf`, `KeyBlock`, `SuiteSelection` | TLS 1.0 to 1.2 key derivation and suite choice |

`dafny verify dfyconfig.toml` checks everything.

Two promises do not hold of the code as it stands, and the model keeps the code's behaviour. A retried
ClientHello that still offers a PSK adds the HelloRetryRequest to the handshake transcript a second time
(handshake_client_tls13.go:264-267): `Agreement13.TranscriptsMeetExactly` gives the exact condition,
`Agreement13.RetriedPskNeedsCollision` what follows from it, `Retry13.ExampleDiverges` a run for any hash. And
SupportsCertificate accepts some keys that processClientHello then rejects:
`SuiteSelection.SupportPredictsSelection` gives the exact condition (a key that implements crypto.Decrypter
without being an RSA key), `SuiteSelection.DecryptingEcdsaExample` a certificate.

Assumptions about honest parties are named predicates: `Agreement13.HelloOk` (what makeClientHello
guarantees), `SessionOk` (a cached session is known to the server with the same secret, which
`TicketResumes` establishes), `CredentialsOk` (certificates belong to their keys), `DrawsOk` (a server
random is not the HelloRetryRequest constant). Ticket key names are taken to be distinct.

## Model

| member | source | states |
|---|---|---|
| `Padding.ExtractPadding` | conn.go:283-328 | for every payload below 2^31 octets the branch-free result is that of the plain check: (p+1, 255) exactly when the last p+1 octets exist and all equal p, otherwise (1, 0); (0, 0) for an empty payload |
| `Padding.CheckOctet` | conn.go:300-306 | one masked round keeps all bits set exactly if they were set and the octet is either outside the claimed padding or equal to its length |
| `Padding.Conclude` | conn.go:308-327 | folding the bits yields 255 only if all were set, and bad padding always removes one octet |
| `Padding.AllChecked` | conn.go:289-306 | scanning min(256, length) octets from the end covers all the padding there can be |
| `HalfConn.IncAddsOne` | conn.go:239-251 | the carry rule is big-endian addition of one, zero only at wrap-around |
| `HalfConn.HalfConn.IncSeq` | conn.go:239-251 | the array counts up by one in place, and the only failure is wrap-around of the 64-bit counter |
| `HalfConn.HalfConn.ChangeCipherSpec` | conn.go:215-227 | installs the prepared pair and restarts the sequence number; refused, with nothing changed, in TLS 1.3 or when nothing is prepared |
| `HalfConn.HalfConn.SetTrafficSecret` | conn.go:229-236 | a TLS 1.3 key installation restarts the sequence number at zero |
| `HalfConn.HalfConn.ExplicitNonceLength` | conn.go:256-278 | in every record sealed in this state, whatever its content and randomness, the protected fragment starts exactly that many octets after the header |
| `HalfConn.FillPadding` | conn.go:541-549 | the in-place fill is CBC padding to a whole number of blocks |
| `HalfConn.ScanInner` | conn.go:418-428 | the backward scan finds the last non-zero octet, and fails exactly on all zeros |
| `HalfConn.HalfConn.EncryptRecord` | conn.go:482-565 | sealing in place gives the record whose octets RecordOctets writes out for each cipher shape and advances the state, failing only without randomness or at wrap-around |
| `HalfConn.HalfConn.DecryptRecord` | conn.go:342-464 | opening in place computes the functional result: content and type, or the alert |
| `HalfConn.HalfConn.DecryptBlocks` | conn.go:387-406 | CBC decryption with or without explicit IV keeps the next IV the sender will use |
| `HalfConn.HalfConn.VerifyMac` | conn.go:434-460 | content is delivered only with a good padding verdict and the MAC over sequence number, header and content, as RecordOctets writes it out; every other case ends in the same alert |
| `RecordOctets.StreamRecordOctets` | conn.go:510-514 | the octets of a stream cipher record: header, then content and HMAC(sequence number, type, version, length, content) xored with the next octets of the key stream, which is then that much further |
| `RecordOctets.CbcRecordOctets` | conn.go:539-555 | the octets of a CBC record: header, from TLS 1.1 on a random IV, and the encryption of content, that HMAC, and n octets of value n-1 up to a whole number of blocks; the last ciphertext block is the next IV |
| `RecordOctets.PrefixRecordOctets` | conn.go:515-538 | the octets of a TLS 1.2 GCM record: sequence number in the clear, sealed under salt and sequence number with sequence number, type, version and content length as additional data |
| `RecordOctets.MaskedRecordOctets` | conn.go:515-538 | the octets of a ChaCha20-Poly1305 or TLS 1.3 record: nonce octet by octet, and in TLS 1.3 the type after the content, outer type 23 and the header as additional data |
| `RecordOctets.VersionOctets` | conn.go:1016-1027 | the version field of every sealed record: 3.1 before a version is settled, the version itself up to TLS 1.2, 3.3 in TLS 1.3 |
| `RecordOctets.StreamOpensExactly` | conn.go:360-361 | any stream cipher record is opened exactly if what the key stream leaves of it ends in the HMAC of the rest at the receiver's own sequence number, and to that rest; otherwise bad_record_mac |
| `RecordOctets.CbcOpensExactly` | conn.go:387-460 | any CBC record is opened exactly if it has whole blocks and enough of them, its plaintext is well padded and the octets before the padding are the HMAC of the content at the receiver's own sequence number; everything else is the same bad_record_mac |
| `RecordOctets.EarlyAeadOpensExactly` | conn.go:362-386 | any AEAD record before TLS 1.3 is opened exactly if the AEAD opens it under the written-out nonce and additional data |
| `RecordOctets.Tls13OpensExactly` | conn.go:411-429 | a TLS 1.3 record is opened to a content and type exactly if it claims application data and the AEAD opens it, at the receiver's own sequence number, to the content, the non-zero type and zeros within the limit |
| `RecordOctets.ChangeCipherSpecPasses` | conn.go:347-352 | in TLS 1.3 a ChangeCipherSpec record passes as it is and is not counted |
| `RoundTrip.StreamRoundTrip` | conn.go:360-361 | stream cipher: opening what was sealed gives payload, type and the same key stream position |
| `RoundTrip.CbcRoundTrip` | conn.go:387-406 | CBC, implicit or explicit IV: padding and MAC come off again |
| `RoundTrip.AeadRoundTrip` | conn.go:362-386 | AEAD with explicit or counter nonce: opening what was sealed gives payload and type |
| `RoundTrip.Tls13PaddingInvisible` | conn.go:411-429 | any number of zeros after the inner type leaves content and type unchanged |
| `RoundTrip.Tls13RoundTrip` | conn.go:505-537 | TLS 1.3 framing: inner type and content come back |
| `RoundTrip.RecordRoundTrip` | conn.go:482-565 | every cipher shape: one sealed record opens to its fragment and leaves both states equal |
| `RoundTrip.StreamOfRecordsRoundTrip` | conn.go:342-464 | every sequence of typed fragments after a key installation comes back in order, with both sequence numbers in lockstep |
| `RoundTrip.SealingRunExists` | conn.go:482-565 | such a run exists for every sequence of fragments that fits the sequence space |
| `Nonces.XorNonceWrapper.Seal` | cipher_suites.go:487-497 | the wrapped AEAD sees mask xor nonce and the mask array is restored |
| `Nonces.XorNonceWrapper.Open` | cipher_suites.go:499-509 | the same for opening, also when opening fails |
| `Nonces.PrefixNonceWrapper.Seal` | cipher_suites.go:466-469 | the wrapped AEAD sees the fixed prefix followed by the nonce, and the prefix stays |
| `Nonces.PrefixNonceWrapper.Open` | cipher_suites.go:471-474 | the same for opening |
| `Nonces.SealsUnderNextNonce` | conn.go:487-537 | the nonce of a record is the wrapper's function of the sequence number it is sealed at |
| `Nonces.NonceInjective` | cipher_suites.go:487-497 | different sequence numbers give different 12-octet nonces under both wrappers |
| `Nonces.SealFailsOnlyAtWraparound` | conn.go:239-251 | sealing under an AEAD fails only when the sequence number is at its last value |
| `Nonces.NoncesNeverRepeat` | conn.go:487-537 | in every run of seals between key installations no two records use the same nonce |
| `RecordWriter.Writer.MaxPayloadSizeForWrite` | conn.go:904-952 | the chosen size is between 1 and 16384, and the packet count advances exactly for application data below the threshold with dynamic sizing on |
| `RecordWriter.ChosenSizeInRange` | conn.go:904-952 | for every cipher shape, version, type and history the size is between 1 and 16384 |
| `RecordWriter.EncodedLenIsExact` | conn.go:482-565 | the length of an encoded record, per cipher shape, as a function of the payload length |
| `RecordWriter.WithinReaderLimits` | conn.go:685-688 | no record exceeds the reader's limit for its version, nor the 16-bit length field |
| `RecordWriter.GrowthRespectsSegments` | conn.go:913-951 | a record sized with packet count k in the growth branch encodes to at most (k+1)*1208 octets |
| `RecordWriter.SizedToSegments` | conn.go:904-952 | the chosen size is (packets + 1) times the most payload whose record fits 1208 octets, up to 16384; and 16384 for other record types, from 128 KiB or a thousand packets on, and with sizing off |
| `RecordWriter.FullRecords` | conn.go:904-907 | in every written run of other types, or with sizing off, all fragments but the last have 16384 octets |
| `RecordWriter.Writer.SealNext` | conn.go:1011-1045 | one round of the write loop seals the front of what is left, as much of it as the chosen size allows |
| `RecordWriter.Writer.WriteFragments` | conn.go:1001-1045 | the loop ends; fragments concatenate to exactly the data reported written, are sealed one after the other, and each has the size chosen from what was sent before it, but for a shorter last one |
| `RecordWriter.Writer.WriteRecordLocked` | conn.go:986-1054 | the same for the whole call, with the cipher change after a ChangeCipherSpec; the records are sent, or held back while buffering, in order |
| `RecordWriter.Writer.Emit` | conn.go:954-963 | while buffering nothing is sent or counted as sent |
| `RecordWriter.Writer.Flush` | conn.go:965-975 | what was held back goes out in order, and the count follows |
| `RecordReader.Fetch` | conn.go:612-702 | exactly the complete records with an acceptable header leave the wire, and exactly those that open under the current keys are delivered |
| `RecordReader.HeaderProblem` | conn.go:644-697 | the header checks report nothing exactly if the record is complete, within the limit of the version, of the right version, and believable as a first record |
| `RecordReader.DispatchEffects` | conn.go:722-791 | the switch on the record type has exactly one effect, or ends the connection, or ignores the record and changes nothing; Delivery.DispatchExactly says which and with what content |
| `RecordReader.ReadMakesProgress` | conn.go:598-793 | for any peer input a call ends after taking at most 17 records off the wire, rejected ones included; a successful call has exactly one of three effects (handshake buffer grows, input cipher changes, non-empty application input), a failed one none |
| `RecordReader.RetryMakesProgress` | conn.go:797-804 | each retry counts towards the limit and leaves one record less to take; its effects are those of a read |
| `RecordReader.EffectsAreExclusive` | conn.go:722-791 | the three effects exclude each other, and the input cipher never changes in TLS 1.3 |
| `Delivery.DispatchExactly` | conn.go:704-791 | a record is delivered exactly if it is wanted at this point, and then all of its content becomes input, joins the handshake buffer or switches the cipher; it is ignored exactly if it is empty application data, a warning or a TLS 1.3 ChangeCipherSpec; close_notify and alerts end the connection with what the peer said |
| `Delivery.ReadDelivers` | conn.go:612-793 | every successful read comes from one record: those before it were ignorable, and it opened, under the keys of that moment, to exactly what was delivered; input set is all the content of an application data record |
| `Delivery.GivesUpAtSeventeen` | conn.go:797-804 | the reader gives up on ignorable records only at the seventeenth in a row |
| `Delivery.AlertsSentExactly` | conn.go:612-804 | a call sends exactly the alert it fails with, and none otherwise |
| `ConnReader.Conn.FetchRecord` | conn.go:612-720 | the object's first half of readRecordOrCCS computes the model's record or error |
| `ConnReader.Conn.DispatchRecord` | conn.go:722-791 | and its switch the effect that Delivery.DispatchExactly characterises: delivered whole, ignored, or fatal |
| `ConnReader.Conn.ReadRecordOrCCS` | conn.go:612-793 | the recursive method computes the model's result and state |
| `ConnReader.Conn.RetryReadRecord` | conn.go:797-804 | including the retry counter |
| `ConnReader.Conn.ReadHandshakeMessage` | conn.go:1086-1171 | readHandshake computes the model's message or error and leaves the model's buffer |
| `ConnReader.Conn.ReadApplicationData` | conn.go:1351-1392 | Read: its two loops, the octets handed out, and the look at a waiting alert, as functions of the state |
| `Reassembly.FillTo` | conn.go:1086-1104 | filling stops with enough buffered octets or with an error |
| `Reassembly.ReadHandshake` | conn.go:1086-1171 | a returned message is whole, as long as its length field says, of a known type and accepted; an announced body above 65536 octets fails without being read |
| `Reassembly.FillReaches` | conn.go:1086-1104 | however the octets are cut into records, filling reaches the wanted length and skips nothing |
| `Reassembly.ReadOneMessage` | conn.go:1086-1171 | one read returns the first message and leaves exactly the rest |
| `Reassembly.MessagesReassembled` | conn.go:785-790 | for every sequence of messages and every split of their octets into non-empty handshake records, successive reads return those messages in order and leave exactly the unread suffix |
| `EndToEnd.SealedHeader` | conn.go:1011-1037 | header fields of a sealed record as the reader will see them |
| `EndToEnd.WrittenMessagesAreRead` | conn.go:986-1054 | messages written through the fragmenting loop under installed keys come out of readHandshake one by one; the reader ends in the sender's final state |
| `DataReader.ReadsSome` | conn.go:1364-1377 | a call with room for n octets hands out between 1 and n octets from the front of the data not yet read and leaves exactly the rest |
| `DataReader.WrittenDataIsRead` | conn.go:1351-1392 | application data written through the fragmenting loop, whatever sizes it chose, is read back by Read with buffers of any sizes: the pieces together are the data, and the reader ends with nothing pending in the sender's final state |
| `ConnRun.ReadMessages` | conn.go:1086-1171 | calling the reading object again and again returns those messages |
| `ConnRun.Deliver` | conn.go:986-1171 | what the writing object writes, the reading object of the other side returns message by message, ending with nothing buffered and in the writer's cipher state |
| `ConnRun.DeliverData` | conn.go:986-1392 | what the writing object is given as application data, the reading object of the other side hands out octet for octet, with buffers of any sizes, ending with nothing pending and in the writer's cipher state |
| `KeyUpdate.ReachableIsCoherent` | conn.go:1313-1343 | in every reachable state of two peers over FIFO channels, under every interleaving, no record fails to decrypt |
| `KeyUpdate.InFlightMeetsItsKey` | key_schedule.go:86-95 | each record in flight meets exactly the key generation and sequence number it was sealed with |
| `KeyUpdate.GenerationsInStep` | conn.go:1313-1343 | in every reachable state each sender is ahead of its receiver by exactly the KeyUpdates in flight, every record in flight was sealed under the secret and sequence number the receiver will then be at, and received data followed by data in flight is the data sent |
| `KeyUpdate.EveryRequestAnsweredOnce` | conn.go:1322-1340 | in every reachable state a side's key generation and the requests still on their way to it add up to the updates it started and those its peer asked for: each request is answered once, and nothing else makes a side rekey |
| `KeyUpdate.NumbersNeverReturn` | conn.go:229-236 | across any number of updates no side seals two records under the same key generation and sequence number, and each generation starts at zero |
| `CloseInterlock.ReachableInv` | conn.go:1183-1194 | the counter always equals twice the writers inside plus the closed bit |
| `CloseInterlock.CounterFitsInt32` | conn.go:1183-1194 | with fewer than 2^30 callers the 32-bit counter does not overflow |
| `CloseInterlock.OneCloseWins` | conn.go:1395-1407 | once any Close has returned exactly one Close has won, the same from then on, and every other Close that returns is refused |
| `CloseInterlock.NoWriteAfterClose` | conn.go:1183-1194 | after it no Write enters |
| `CloseInterlock.NotifiedExactlyIfIdle` | conn.go:1408-1422 | a Close attempts close_notify exactly if no Write was in flight at its swap and the handshake was complete when it then loaded the flag, which others may store at any time |
| `CertCache.ReachableInv` | cache.go:51-95 | every interleaving of newCert calls, finalizers and evictions keeps counts, handles and table accounted for |
| `CertCache.CountsAndHandlesCorrect` | cache.go:60-69 | reference counts are the number of live handles, so never negative, and each handle holds the parse of its DER |
| `CertCache.CallReturnsItsDer` | cache.go:80-95 | a call returns a handle for the DER it was given, and fails only if that does not parse |
| `CertCache.SettledCacheIsEmpty` | cache.go:60-74 | in spite of the evict race, once no handle is live and no call is mid-flight the table is empty |
| `Wire.ReadElements` | handshake_messages.go:371-380 | the list loop accepts exactly the strings that are written from valid items, and returns those items |
| `Wire.ElementsOfWritten` | handshake_messages.go:98-301 | reading a written list gives the list |
| `Wire.WrittenElements` | handshake_messages.go:355-604 | and every accepted string is the writing of what was read |
| `Wire.ListRoundTrip` | handshake_messages.go:125-135 | length-prefixed lists survive writing and reading |
| `Wire.VectorRoundTrip` | handshake_messages.go:54-68 | and so do length-prefixed vectors |
| `Extensions.AcceptedExactly` | handshake_messages.go:396-410 | an extension block, whoever wrote it, is accepted if and only if it is well framed, each body decodes, no extension repeats, and nothing follows one that must be last |
| `Extensions.BlockRoundTrip` | handshake_messages.go:104-269 | whatever subset of optional extensions is present, reading the block completes the message field by field |
| `Extensions.FinalIsEnd` | handshake_messages.go:563-567 | the extension that must be last is the end of every accepted block |
| `ClientHello.BodyRoundTrip` | handshake_messages.go:412-600 | each extension body is read back to what was written |
| `ClientHello.DecodedIsSane` | handshake_messages.go:412-600 | a decoded extension is never empty where the parser forbids it and carries its own code |
| `ClientHello.ReadHostName` | handshake_messages.go:417-437 | the server_name loop finds the only host name, refusing a second one or a trailing dot |
| `ClientHello.ReadExtension` | handshake_messages.go:412-600 | the switch with its inner loops computes the decoded extension, which HelloBodies characterises by the layout of the body |
| `ClientHelloCodec.HelloRoundTrip` | handshake_messages.go:98-301 | unmarshal of marshal recovers every field of a well-formed ClientHello |
| `ClientHelloCodec.RoundTripExactly` | handshake_messages.go:355-604 | the round trip is the identity on a message if and only if it fits its length prefixes and sets nothing its extensions do not carry |
| `ClientHelloCodec.UnmarshaledIsSane` | handshake_messages.go:355-604 | every accepted ClientHello is of the kind that survives |
| `ClientHelloCodec.MisplacedIsRejected` | handshake_messages.go:404-410 | a block with a repeated extension or a non-final pre_shared_key is rejected |
| `ServerHello.HelloRoundTrip` | handshake_messages.go:630-744 | unmarshal of marshal recovers every field of a well-formed ServerHello or HelloRetryRequest |
| `ServerHello.RoundTripExactly` | handshake_messages.go:746-860 | exactly for messages that fit, set nothing uncarried, and have one kind of key_share |
| `ServerHello.GroupZeroIsDropped` | handshake_messages.go:680-688 | a key share for group 0 is not written, so it is lost |
| `ServerHello.ReadServerHello` | handshake_messages.go:746-860 | the parsing loop returns the message that was marshaled |
| `HelloLayout.ClientHelloLaidOut` | handshake_messages.go:98-301 | every ClientHello is written in the layout of section 4.1.2 of RFC 8446, spelled out with extension numbers, order, prefix widths and element encodings and without the codec's tables |
| `HelloLayout.ServerHelloLaidOut` | handshake_messages.go:630-744 | and every ServerHello and HelloRetryRequest in that of section 4.1.3 |
| `HelloMarshal.ClientHelloOnTheWire` | handshake_messages.go:98-301 | marshal succeeds exactly if no length overflows, with that layout; and unmarshal reads that layout as the message |
| `HelloMarshal.ServerHelloOnTheWire` | handshake_messages.go:630-744 | the same for ServerHello and HelloRetryRequest |
| `HelloBodies.ClientBodyReadExactly` | handshake_messages.go:412-600 | every extension body but two is read as a value exactly if it is the layout of that value, without an empty part where none is allowed |
| `HelloBodies.StatusReadExactly` | handshake_messages.go:438-447 | a status_request is read whatever it names, and asks for OCSP exactly if its type is one |
| `HelloBodies.HostNamesReadExactly` | handshake_messages.go:412-437 | a server_name list is read exactly if it is a list of non-empty names with at most one host name, which has no trailing dot |
| `HelloBodies.ServerBodyReadExactly` | handshake_messages.go:768-856 | every extension body of a ServerHello is read exactly if it is the layout of its value |
| `Binders.ClientHelloMsg.Unmarshal` | handshake_messages.go:355-604 | the object takes over fields and encoding; with a PSK offered its encoding ends with its binders |
| `Binders.ClientHelloMsg.Marshal` | handshake_messages.go:98-301 | the encoding, in the layout HelloLayout.ClientHelloLaidOut writes out, is built once, and not at all if a prefix overflows |
| `Binders.ClientHelloMsg.MarshalWithoutBinders` | handshake_messages.go:306-318 | what is cut off is exactly the binder list, also for hellos someone else encoded |
| `Binders.ClientHelloMsg.UpdateBinders` | handshake_messages.go:323-353 | succeeds exactly for unchanged lengths; the prefix stays octet for octet and the patched encoding is that of a fresh marshal |
| `Binders.HelloDiffersInBinders` | handshake_messages.go:249-269 | encodings that differ only in binders of the same lengths differ only at the end |
| `Binders.ReceivedEndsInBinders` | handshake_messages.go:563-592 | every accepted hello that offers a PSK ends with the encoding of its binders |
| `KeySchedule.HkdfLabelInjective` | key_schedule.go:34-45 | different labels, contexts or lengths give different HKDF inputs |
| `KeySchedule.DerivationsSeparate` | key_schedule.go:22-117 | no two labels of the schedule, traffic keys and exporter included, ever share an HKDF input |
| `KeySchedule.KdfSeparates` | key_schedule.go:34-74 | in the schedule the handshake runs on, two derivations from one secret expand the same input only if label and context are the same |
| `KeySchedule.HkdfLabelOctets` | key_schedule.go:34-45 | the HkdfLabel octet by octet |
| `Agreement13.StartedOffers` | handshake_client.go:346-371 | the hello of a resuming client carries the binder of its own truncated encoding |
| `Agreement13.SelectedGroup` | handshake_server_tls13.go:178-200 | a share for a preferred group wins; otherwise the group is preferred, supported and without a share |
| `Negotiation13.SuiteIsFirstPreferred` | handshake_server_tls13.go:160-173 | the suite selected is exactly the first of the server's list that is known and offered |
| `Negotiation13.GroupIsFirstPreferred` | handshake_server_tls13.go:178-200 | the group is exactly the first preferred one with a key share, and only without any the first preferred one the client supports |
| `Negotiation13.HelloAcceptedExactly` | handshake_server_tls13.go:93-200 | processClientHello settles on an offer exactly if the hello is one for TLS 1.3 with null compression alone, no renegotiation and no early data, and suite and group are the first preferred ones |
| `Negotiation13.ProtocolIsFirstPreferred` | handshake_server.go:287-310 | the protocol is exactly the server's first among the client's; without one, only a side that names none or h2 meeting http/1.1 goes on |
| `Agreement13.ResumptionAgrees` | handshake_server_tls13.go:237-337 | the server accepts an honest binder, derives the client's early secret, and passes over a session only for a reason the hello or the config gives |
| `Agreement13.MeetsDirectly` | handshake_server_tls13.go:93-235 | without a retry both sides reach the ServerHello with one transcript, matching shares and one view of resumption, or the server refuses |
| `Agreement13.MeetsAfterRetry` | handshake_client_tls13.go:190-308 | and so they do after a HelloRetryRequest that does not keep a PSK |
| `Agreement13.TranscriptsMeetExactly` | handshake_client_tls13.go:253-281 | transcripts agree at the ServerHello if and only if the run is not a retry that keeps a PSK |
| `Agreement13.RetriedPskNeedsCollision` | handshake_client_tls13.go:264-267 | a retry that keeps a PSK completes only if two different transcripts have the same Finished |
| `Retry13.ExampleDiverges` | handshake_client_tls13.go:264-267 | a run, for any hash, curves, keys and encoding, in which every check up to the ServerHello passes and the transcripts differ |
| `Retry13.ExampleCanBeSent` | handshake_messages.go:98-301 | the hello of that run marshals without error and reads back unchanged |
| `Agreement13.HandshakeKeysAgree` | handshake_client_tls13.go:367-411 | handshake traffic secrets mirror each other and the client already holds the server's master secret |
| `Agreement13.ParametersAgree` | handshake_server_tls13.go:568-585 | the client accepts the protocol the server negotiated, and transcripts stay equal |
| `Agreement13.CertificatesAgree` | handshake_client_tls13.go:436-525 | with or without a certificate request, signatures verify and both sides stay in step unless the client refuses the chain |
| `Agreement13.ServerFinishedAgrees` | handshake_client_tls13.go:527-576 | the server's Finished verifies; application, exporter and master secrets are equal after it |
| `Agreement13.ClientCertificateAgrees` | handshake_server_tls13.go:785-872 | an empty or non-empty client certificate leaves both in step unless the server refuses the chain |
| `Agreement13.PrecomputedFinished` | handshake_server_tls13.go:720-730 | the Finished the server computed in advance is the one the client sends, and both derive the same resumption secret |
| `Agreement13.HonestHandshake` | handshake_server_tls13.go:44-91 | every honest run stops by refusal or ends with one transcript, mirrored traffic secrets and equal master, exporter and resumption secrets |
| `Agreement13.TicketResumes` | handshake_client_tls13.go:666-714 | a ticket of an agreed run gives a session that fulfils the precondition of the next one |
| `Agreement13.TruncationIgnoresBinders` | handshake_messages.go:306-318 | the encoder's truncation has the property the binder computation relies on |
| `Authentication13.CertificateReadExactly` | handshake_client_tls13.go:436-525 | for any client state and any peer's flight, without a PSK: the client goes on exactly if the chain is non-empty and accepted and the signature verifies under it over the written-out transcript through the Certificate message |
| `Authentication13.ServerHelloReadExactly` | handshake_client_tls13.go:310-365 | a ServerHello is taken exactly if it has one share for the client's key and selects at most the one session offered, with its hash |
| `Authentication13.ServerAuthenticatedExactly` | handshake_client_tls13.go:310-576 | any peer's whole flight is accepted exactly if it proves the server by an accepted chain with its signature or by the client's own session, and in both cases by the Finished under the secret of the key exchange over everything before it |
| `Authentication13.ClientCertificateReadExactly` | handshake_server_tls13.go:785-872 | a server takes certificate messages from any peer exactly if its policy admits the chain and, for a non-empty one, the signature verifies over the written-out transcript |
| `Authentication13.ClientAuthenticatedExactly` | handshake_server_tls13.go:785-897 | any peer's whole flight is accepted exactly if it answers the request, where there is one, and ends in the Finished under the client's handshake secret over everything before it |
| `Authentication13.SessionOfferedExactly` | handshake_client.go:346-371 | a resuming client offers one identity, the ticket of its session, with the written-out binder over the truncated hello |
| `Authentication13.ResumesExactly` | handshake_server_tls13.go:237-337 | a session is resumed exactly if tickets are on, the client takes PSK with (EC)DHE, and the first fitting ticket of its first five identities comes with the written-out HMAC binder over the truncated hello and with certificates still let in |
| `Authentication13.PreparedExactly` | handshake_server_tls13.go:202-235 | a server is ready to answer exactly if the key exchange succeeds and it resumes a session or has a certificate to show |
| `Authentication13.TicketSentExactly` | handshake_server_tls13.go:706-783 | a ticket goes out exactly if tickets are on and the client takes PSK with (EC)DHE, holding suite, resumption secret and client certificates for seven days |
| `Authentication13.TicketKeptExactly` | handshake_client_tls13.go:666-714 | a ticket becomes a session exactly if sessions are kept and its lifetime is positive and at most seven days |
| `Authentication13.RetryAnsweredExactly` | handshake_client_tls13.go:190-290 | a retry is answered exactly if it asks for a cookie or for a supported group without a share; the second hello changes nothing else, and the transcript is written out |
| `Authentication13.RetryRequestedExactly` | handshake_server_tls13.go:412-445 | the fields of a HelloRetryRequest and the transcript after it, written out |
| `Authentication13.SecondHelloTakenExactly` | handshake_server_tls13.go:446-530 | a second hello is taken exactly if it is the first but for one share of the group asked for and the PSK |
| `Authentication13.ServerHelloCheckedExactly` | handshake_client_tls13.go:124-175 | a ServerHello passes exactly if it is for TLS 1.3, echoes the session id, has no forbidden extension and selects an offered known suite, the same as before a retry |
| `Schedule13.ServerKeysScheduled` | handshake_server_tls13.go:532-553 | handshake traffic secrets are those of the section 7.1 diagram of RFC 8446 over the messages through the ServerHello |
| `Schedule13.FlightScheduled` | handshake_server_tls13.go:592-690 | the server's Finished and its application and exporter secrets are the diagram's over exactly the messages sent before |
| `Schedule13.TicketsScheduled` | handshake_server_tls13.go:720-737 | so are the client Finished computed in advance and the resumption secret |
| `Schedule13.FoundPskFits` | handshake_server_tls13.go:263-334 | a resuming server's early secret is that of the PSK of a ticket it could open |
| `Schedule13.ExchangeScheduled` | handshake_client_tls13.go:527-664 | from the ServerHello on, both sides end with the diagram's application, exporter and resumption secrets and its client Finished, over the messages they exchanged |
| `Schedule13.HonestRunFollowsSchedule` | handshake_server_tls13.go:44-91 | every honest run that completes follows the diagram throughout, handshake secrets included, from one PSK of an offered ticket or none and one ECDHE secret, equally on both sides |
| `Channel13.ApplicationDataFlows` | conn.go:229-236 | after an honest handshake every stream of records sealed by either side opens at the other, types and octets in order |
| `HandshakeObjects.ClientHandshake.ProcessHelloRetryRequest` | handshake_client_tls13.go:190-308 | the object's transcript, key share and PSK after a retry |
| `HandshakeObjects.ClientHandshake.UpdatePsk` | handshake_client_tls13.go:253-285 | including the request added to the handshake transcript and not to the binder's |
| `HandshakeObjects.ClientHandshake.EstablishKeys` | handshake_client_tls13.go:310-411 | secrets installed for both directions, or the failure |
| `HandshakeObjects.ClientHandshake.ReadParameters` | handshake_client_tls13.go:413-434 | the EncryptedExtensions enter the transcript, and a protocol that was not offered is refused |
| `HandshakeObjects.ClientHandshake.ReadCertificates` | handshake_client_tls13.go:436-525 | a request is remembered, and the object goes on exactly where Authentication13.CertificateReadExactly demands: an accepted non-empty chain and a signature over the transcript before it |
| `HandshakeObjects.ClientHandshake.ReadFinished` | handshake_client_tls13.go:527-576 | the server's Finished is checked before it enters the transcript |
| `HandshakeObjects.ClientHandshake.SendCertificate` | handshake_client_tls13.go:578-643 | nothing unless requested, and no signature for an empty chain |
| `HandshakeObjects.ClientHandshake.SendFinished` | handshake_client_tls13.go:645-664 | sending switches to application secrets and keeps a resumption secret if sessions are kept |
| `HandshakeObjects.ServerHandshake.SendServerParameters` | handshake_server_tls13.go:532-586 | keys after both hellos, then the negotiated protocol |
| `HandshakeObjects.ServerHandshake.SendCertificate` | handshake_server_tls13.go:592-657 | request, certificate and signature in order, nothing under a PSK |
| `HandshakeObjects.ServerHandshake.SendFinished` | handshake_server_tls13.go:659-704 | Finished and the secrets derived through it |
| `HandshakeObjects.ServerHandshake.SendTickets` | handshake_server_tls13.go:706-783 | the transcript rolled over the expected Finished, and the ticket if one is wanted |
| `HandshakeObjects.ServerHandshake.ReadCertificates` | handshake_server_tls13.go:785-872 | chain policy and signature |
| `HandshakeObjects.ServerHandshake.ReadFinished` | handshake_server_tls13.go:874-897 | only the expected Finished switches the input to application secrets |
| `HandshakeObjects.ChooseSuite` | handshake_server_tls13.go:160-173 | the loop picks the first preferred mutual suite |
| `HandshakeObjects.ChooseGroup` | handshake_server_tls13.go:178-200 | the labelled loop prefers groups with a share |
| `HandshakeObjects.ChoosePsk` | handshake_server_tls13.go:263-334 | the first usable identity among five decides, by its binder |
| `HandshakeObjects.NegotiateProtocol` | handshake_server.go:287-310 | the first server protocol the client has, with the http/1.1 exception |
| `HandshakeObjects.CheckProtocol` | handshake_client.go:770-783 | the loop accepts no protocol, or an offered one |
| `HandshakeRun.MeetObjects` | handshake_server_tls13.go:93-235 | driving the two objects to the ServerHello, with a retry or without, reaches the meeting the theorems speak of, or its failure |
| `HandshakeRun.ExchangeObjects` | handshake_client_tls13.go:41-120 | driving them on through both flights reaches the completed run, or its failure |
| `HandshakeRun.HonestHandshakeOfObjects` | handshake_server_tls13.go:44-91 | a whole honest handshake between the two objects stops only by refusal, or leaves them with one transcript, mirrored traffic secrets, equal master, exporter and resumption secrets, and the expected client Finished |
| `LruCache.LruSessionCache.constructor` | common.go:1419-1430 | an empty cache with the capacity asked for, or 64 |
| `LruCache.LruSessionCache.Get` | common.go:1467-1476 | a hit moves the entry to the front and returns its state, possibly nil |
| `LruCache.LruSessionCache.Put` | common.go:1434-1463 | map and list stay linked and within capacity, whichever branch is taken; what is then held is what LruHistory.ResidentHoldsLastPut says |
| `LruHistory.RecentlyTouchedIsResident` | common.go:1403-1476 | over every history the size stays within capacity, and a key not deleted since its last touch is resident if fewer than capacity distinct other keys were touched since |
| `LruHistory.ResidentExactlyIfRecent` | common.go:1403-1476 | with no nil Put this is an equivalence |
| `LruHistory.DeletionLeavesRoom` | common.go:1438-1446 | with a nil Put the converse fails: a concrete history keeps a key that capacity others were touched after |
| `LruHistory.HistoryTracked` | common.go:1434-1476 | keys in front of an entry are keys touched after it |
| `LruHistory.ResidentHoldsLastPut` | common.go:1434-1463 | over every history, what a resident key holds is the state of the last Put of that key |
| `LruHistory.Replay` | common.go:1434-1476 | any sequence of calls on the object: every Get is answered with what was last put under its key, or not at all if the key is not resident |
| `TicketKeys.ReachableInv` | common.go:890-926 | under every interleaving of callers and any monotone clock, the ring is the newest part of all keys ever made and leaves out only expired ones |
| `TicketKeys.RingWellKept` | common.go:897-925 | at most seven keys, newest first, at least 24 hours apart |
| `TicketKeys.OneRotationPerStaleness` | common.go:902-924 | however many callers saw the same stale key, two rotations are at least 24 hours apart |
| `TicketKeys.UnexpiredIsPrefix` | common.go:915-922 | the expiry filter drops a tail of the ring, even with a clock read for each key |
| `TicketKeys.Config.TicketKeys` | common.go:897-925 | a call returns keys of which the first is less than a day old, keeps every key younger than seven days, and leaves at most seven, newest first and a day apart |
| `TicketKeys.Config.RotateIfStale` | common.go:904-925 | the slow path checks again before it rotates |
| `Tickets.TicketRoundTrip` | ticket.go:119-185 | a ticket opens to its plaintext under any ring holding its key, and the answer tells whether that key is an old one |
| `Tickets.TicketOctets` | ticket.go:119-145 | the octets of a ticket: key name, IV, the state under the key stream, and a MAC over all of that |
| `Tickets.TicketOpensExactly` | ticket.go:147-185 | a ticket from anyone is opened exactly if the first key with its name made its MAC, to the octets under the key stream, and usedOldKey exactly if that key is not the first |
| `Tickets.TicketGoodForSevenDays` | ticket.go:147-185 | in every run a ticket opens until its key is seven days old, usedOldKey exactly if a rotation happened since, and not under rings from before its key |
| `Tickets.EncryptTicket` | ticket.go:119-145 | the buffer filled piece by piece is the sealed ticket |
| `Tickets.DecryptTicket` | ticket.go:147-185 | key search, MAC and key stream give the opened ticket |
| `Prf.FillPHash` | prf.go:27-45 | for every length the loop yields exactly that prefix of the infinite A(i) expansion |
| `Prf.PHashIsPrefixOfBlocks` | prf.go:27-45 | any output is a prefix of the concatenation of HMAC(A(i) + seed) that section 5 of RFC 5246 writes out |
| `Prf.FillPrf10` | prf.go:48-64 | two expansions of overlapping halves, folded in place |
| `Prf.FillPrf` | prf.go:87-104 | the PRF of the version and the suite hash |
| `Prf.Split` | prf.go:20-24 | equal halves that cover the secret and share the middle octet of an odd one |
| `KeyBlock.SlicesPartition` | prf.go:121-141 | the six slices have the lengths asked for and make up the block in order |
| `KeyBlock.KeysFromMasterSecret` | prf.go:121-141 | the buffer is expanded with the server random first and cut from the front |
| `KeyBlock.TableIsSound` | cipher_suites.go:149-172 | every table suite has an AEAD or a cipher with a MAC, and an IV of the size its cipher takes |
| `KeyBlock.ClientEstablishKeys` | handshake_client.go:671-693 | reads with the server's keys and writes with the client's |
| `KeyBlock.ServerEstablishKeys` | handshake_server.go:691-716 | reads with the client's keys and writes with the server's |
| `KeyBlock.BothSidesMirror` | handshake_client.go:671-693 | for every table suite both sides install the same keys, IVs and MACs with opposite cipher directions, giving one record-layer state |
| `KeyBlock.KeyMaterialIsExpansion` | prf.go:121-141 | the key block is P_hash over "key expansion", the server random and the client random, written out block by block; before TLS 1.2 the xor of the MD5 and SHA-1 expansions under the two halves of the secret |
| `KeyBlock.KeysInstalledInOrder` | prf.go:121-141 | for every table suite each stretch of the block goes where section 6.3 of RFC 5246 sends it: MAC keys, keys, IVs, the client's first |
| `SuiteSelection.SelectCipherSuite` | cipher_suites.go:176-190 | the double loop returns the first eligible suite |
| `SuiteSelection.SelectsFirst` | cipher_suites.go:176-190 | nothing before the selected suite is eligible, and none is selected only if none is |
| `SuiteSelection.PickCipherSuite` | handshake_server.go:341-379 | preference list, selection and fallback check together |
| `SuiteSelection.OrdersAreComplete` | cipher_suites.go:271-323 | both preference orders list every suite of the table |
| `SuiteSelection.SupportPredictsSelection` | common.go:1130-1278 | if SupportsCertificate accepts, the server picks the most preferred mutual allowed suite whatever the order of either list; it reports an internal error instead if and only if the private key decrypts without being an RSA key |
| `SuiteSelection.SupportedExactly` | common.go:1130-1278 | SupportsCertificate accepts exactly if the name fits and a shared ECDHE suite has curve, point format, scheme and key to go with it, or a shared static RSA suite an RSA key that decrypts |
| `SuiteSelection.PickedExactly` | handshake_server.go:341-379 | a suite is picked exactly if it is the first in the order that both sides list and key, curves and version carry, the key is of a usable kind and the client did not fall back without need |
| `SuiteSelection.HardwareDecides` | cipher_suites.go:357-400 | where both could be used, AES-GCM is picked exactly if this side has the hardware and the client puts AES-GCM first, and ChaCha20 otherwise |
| `SuiteSelection.DecryptingEcdsaMispredicted` | handshake_server.go:269-278 | an ECDSA key that also implements Decrypter is accepted by SupportsCertificate and then cannot be used, under any table |
| `SuiteSelection.DecryptingEcdsaExample` | handshake_server.go:269-278 | for instance under the real table with one ECDSA suite |

## Left out

- Kernel TLS hand-off: setsockopt, sendmsg, splice and mmap plumbing whose behaviour is in the kernel.
- Cryptographic primitives, X.509 parsing and chain verification, signature scheme selection: function values or yes/no answers in configurations.
- Renegotiation, and the per-client branch of ticketKeys before common.go:890.
- Sockets, deadlines, contexts, key logging, FIPS variants and write errors of the network; a failed socket write is not modelled.
- Timing: only the functional result of constant-time code.
- The messages other than ClientHello and ServerHello: in the handshake model their encoding is an arbitrary function, in reassembly their parsers are an arbitrary yes/no answer.
- The TLS 1.0 to 1.2 handshake beyond suite choice and key installation, the version negotiation loops, and the session state codec of ticket.go: they would add easier members of kinds already here.
- Alert codes of the handshake: failures are grouped into refusal, protocol violation, unexpected message and failed proof.
- Dummy ChangeCipherSpec records of TLS 1.3, which carry no state the handshake model has.
- nil and empty slices are not told apart in messages.
- ConnReader.Conn.ReadApplicationData: what a post-handshake message does is a parameter, and the look at a waiting alert sees all the peer has sent and not only what has been buffered.
- DataReader.WrittenDataIsRead: nothing follows the data on the wire; what a waiting alert then does is in the function, not in this theorem.
- HalfConn.HalfConn.SetTrafficSecret: takes the key and IV that trafficKey derives instead of the secret.
- RecordReader.ReadMakesProgress: reads from an octet string that holds all the peer will send, so blocking and partial reads are not modelled.
- HandshakeObjects.ClientHandshake.ReadCertificates: takes the messages still to come as a list, so a peer that stops sending appears as an unexpected end.
- LruCache.LruSessionCache.Put: list elements are identities in a map of values, not heap nodes; the mutex is not modelled.
- TicketKeys.ReachableInv: the sections under one lock are single steps; lock fairness is not modelled.
- Agreement13.HonestHandshake: the two sides take turns flight by flight; since each side only ever blocks on the other's next message, no other order is possible up to independent steps.
