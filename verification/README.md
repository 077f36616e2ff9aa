# A verified model of the SIB TCP access daemon and its HIP DEX library

The repository holds a daemon (`src/main.c`) that accepts SSAP clients over TCP, hands
their requests to a SIB over D-Bus and answers them when confirmations come back. Its bytes
can be secured by HIP DEX, a C++ library (`hip-dex/`) that runs a four-message handshake
between two hosts and leaves a pair of counter-mode ciphers at each end. This project models
those two parts and proves what holds between them, from the bits of the checksum to the
messages that a peer receives after a handshake.

`dafny verify dfyconfig.toml` checks the project.

## How the modules fit

| module | what it models |
|---|---|
| `Bytes` | byte strings, 16-bit words, lexicographic order, exclusive or |
| `Checksum` | the 32-bit accumulating, folding checksum over a packet |
| `Parameters` | the twelve HIP parameters, TLV framing with 8-byte padding, decoding at an offset of the packet |
| `Packets`, `PacketLaws`, `MacLaws` | the packet object: printing, parsing, the CMAC over the filtered parameter list; the laws of the codec, what is refused, and what the CMAC covers |
| `Crypto` | the primitives as arbitrary functions. `Suite.Lawful` is all that is assumed of them: the block cipher has an inverse for each key, Diffie-Hellman commutes. CBC is built from them |
| `KeyDeriv` | extract, expand and the split into four keys |
| `AesCtr` | the counter-mode cipher object with its carry loop |
| `Puzzle` | bit truncation, issuing, solving and checking puzzles |
| `SaStore` | security associations, the vector that holds them, and the C interface that encrypts with one |
| `ConnectionStates` | the state gate of a connection and what histories lead to each state |
| `Handshake` | the four packet handlers: a function for each (what it must do) and a method of the connection object (how it does it) |
| `HandlerLaws` | each handler on an arbitrary packet: exactly what is answered and stored |
| `HandshakeLaws` | two honest peers: each message survives the codec and is accepted by the other end's handler |
| `HandshakeRuns` | every run of the two peers over a network that loses, repeats, delays and reorders |
| `Agreement` | a condition on the turns of a run under which the associations fit, and a run in which they do not |
| `Daemon` | the daemon object: connections by HIT, initiating, receiving a datagram |
| `Framing`, `Channel`, `ChannelLaws` | the send and receive loops over TCP with partial sends and 128-byte chunks; end-to-end delivery |
| `ChannelObjects` | the cipher objects of two entries, call after call and through both loops |
| `Traffic` | messages between the two ends while the handshake goes on: cipher positions, bytes in flight, and when they are in step |
| `RequestKey`, `Requests` | string keys of the request table; client threads against confirmation callbacks |
| `ThreadPool` | the pool's queue, close flag and sleeping workers |
| `RcPtr` | reference-counted handles over explicit memory |

Code that updates state in place is a class or a method with loops, each proved against a
function of the old state; the properties are then lemmas about those functions. The
concurrent parts are state machines: `Requests.Next` has one step for each section that a
thread or callback of `src/main.c` runs under a lock, `ThreadPool.Next` one for each section
under the pool's condition, `HandshakeRuns.Take` one for each datagram delivered. Their
theorems quantify over all step sequences.

The assumptions can be met: `Crypto.ToyIsLawful` and `Framing.LawsAreConsistent` give
primitives and a parser with the laws, and `HandshakeRuns.SomeTurns` gives the turns of an
undisturbed, an overtaken and a repeated exchange for any peers whose puzzle search succeeds.

Behaviour that C or C++ leaves undefined is an outcome of its own: `Undefined` and
`OutOfBounds` in the parser, `Fault` in the handlers (a missing parameter dereferenced, a
read outside a buffer). A key, vector or puzzle value of the wrong size is treated as a fault
too, whether or not the source returns: with a puzzle value of 32 bytes, for one, it goes on
without a MAC key and sends an I2. `HandshakeRuns.RunsAreSafe` shows that honest runs never
get there.

## What is proved, in brief

* **Handshake.** In every run of two honest peers no handler faults. An established
  initiator and the responder hold associations that fit crosswise exactly when both pairs of
  session values give the same keys, hence whenever the accepted R2 is the responder's last
  and answered the initiator's current session value. They fit in every run with at most one
  start and at most one I2 given to the responder, whatever else is lost, repeated or
  reordered (`Agreement.OneExchangeAgrees`), and from every reachable world an undisturbed
  exchange restores agreement. Agreement is not unconditional, and neither bound can be
  dropped. An initiator that starts anew before the first R2 arrives mixes the old answer with
  its newer session value; a responder that is given one I2 twice draws a second session value
  and replaces its association, while the initiator accepts the first R2. Either way the ends
  disagree for any session values that give different keys, and `Agreement.AgreementFails`
  gives such runs. When no two pairs of the session values drawn in a run give the same keys,
  the ends agree exactly when both their session values are equal. Of all session values that
  could not be asked, since the keys come from one block; of a few it can, as
  `Agreement.ToyNoCollisions` shows.
* **Handlers.** For every packet, honest or forged, `HandlerLaws` says exactly when it is
  answered and leads to an association: for an I2, when the puzzle is the one issued and solved,
  the MAC is right under the key that the HOST_ID gives, and the session value opens.
* **Packets.** Parsing inverts printing exactly on the faithful parameter lists; signing,
  printing, parsing and verifying compose; the bytes under the CMAC determine the header
  fields and the covered parameters, so a packet changed under its MAC verifies only if the
  MAC cannot tell the two inputs apart; no accepted datagram is accepted with one byte
  changed; the checksum is the ones' complement sum modulo 65535 up to 131074 bytes and not
  beyond; which single-word changes it detects is an if-and-only-if.
* **Channel.** A receiving thread hands over the messages of the decrypted stream, however it
  was cut into chunks. With crosswise associations and complete sends these are the messages
  sent. After a partial send the next message is decrypted right exactly when the key bytes at
  the two ends' positions coincide, and `ChannelLaws.PartialSendFails` gives a send after which
  it is not. With the handshake going on meanwhile, `Traffic` says which events keep the two
  ends' cipher positions in step, and when storing an association does.
* **Requests.** Under all interleavings the table holds the registered requests, no step
  touches a destroyed waiter, nobody sleeps on a ready waiter, answers go out at most once
  on the right descriptor with the right identity, and at rest a request has been answered
  exactly when its key was free and its own answer could be built.
* **Pool and handles.** Tasks start in order, none is stranded or run twice, all have run
  when the pool is at rest; counters equal live handles and every deletion happens once.

Where the code departs from its documentation or from what one might expect, the model
follows the code:

* `CConnection::Handle` moves to the next state even when the handler returned early
  (hip-dex/daemon/Connection.cpp:46-50), so being established does not imply holding an
  association: `HandshakeLaws.R2WithoutMacEstablishes`.
* A HOST_ID takes its domain type from byte 2 of the whole packet
  (hip-dex/protocol/HipHostId.cpp:92), so it round-trips exactly when its type equals the
  upper half of that byte. A HIT_SUITE_LIST comes back only with one entry.
* RFC 7401, section 5.1.1, computes the checksum over a pseudo-header as well; the code does not.
* A byte vector past 65568 bytes, longer than any IP datagram, can hold a parameter whose
  padded length wraps to 0, on which the parse loop never advances. `PacketLaws.StallsIff`
  says on which inputs it does.
* The duplicate of a request in flight is dropped without an answer, and a request whose
  answer cannot be built leaves its table entry behind for good.

## Model

| member | source | states |
|---|---|---|
| Bytes.XorMeaning | hip-dex/protocol/AesCtr.cpp:54 | exactly the bits in which two bytes differ are set in what the cipher object writes |
| Bytes.XorUnit | hip-dex/protocol/AesCtr.cpp:54 | a zero key byte changes nothing, and the result is zero exactly for equal bytes |
| Bytes.LessIff | hip-dex/protocol/HipKeyDeriv.cpp:49 | comparing two byte vectors is dictionary order: at the first difference the smaller one ends or has the smaller byte |
| Checksum.CalcChecksum | hip-dex/protocol/HipPacket.cpp:120-133 | the summing and folding loops terminate and give the ones' complement of the residue of the 32-bit accumulator, for input of any length |
| Checksum.FoldStep | hip-dex/protocol/HipPacket.cpp:129-130 | one fold of the high half into the low half keeps the value modulo 65535 and cannot reach zero |
| Checksum.ResidueIsRemainder | hip-dex/protocol/HipPacket.cpp:129-132 | the folded value is the remainder modulo 65535, with 65535 standing for nonzero multiples |
| Checksum.ChecksumMeaning | hip-dex/protocol/HipPacket.cpp:120-133 | up to 131074 bytes the accumulator cannot overflow and the checksum is 65535 minus the residue of the exact word sum (RFC 1071) |
| Checksum.ChecksumAtAnyLength | hip-dex/protocol/HipPacket.cpp:120-133 | past that length it is 65535 minus the residue of the word sum modulo 2^32 |
| Checksum.OverflowPastTheBound | hip-dex/protocol/HipPacket.cpp:122-127 | the bound is exact: some input two bytes longer overflows the accumulator |
| Checksum.AcceptedIff | hip-dex/protocol/HipPacket.cpp:47-54 | a packet passes the check exactly when its full word sum is 0 modulo 65535 and the stored checksum is 0xFFFF only for the packet that is otherwise zero |
| Checksum.WordChangeDetected | hip-dex/protocol/HipPacket.cpp:47-54 | changing one aligned word outside the checksum field of an accepted packet goes unnoticed exactly for 0x0000 against 0xFFFF in a packet with another nonzero word |
| Checksum.PermutationUndetected | hip-dex/protocol/HipPacket.cpp:124-127 | permuting aligned words never changes the checksum |
| Parameters.WriteTlv | hip-dex/protocol/HipParameter.cpp:69-85 | the array filled in place is type, length, payload and zeros up to a multiple of 8 |
| Parameters.WriteParameter | hip-dex/protocol/HipParameter.cpp:69-85 | every kind of parameter is written as the TLV of its type, size and payload |
| Parameters.PrintedTlv | hip-dex/protocol/HipParameter.cpp:69-85 | a printed parameter is its type and size, its payload and zeros, and is the least multiple of 8 that holds them |
| Parameters.Layout | hip-dex/protocol/HipHostId.cpp:55-98 | the payloads of PUZZLE, SOLUTION and HOST_ID byte by byte, two-byte fields with the high byte first (sections 5.2.4, 5.2.5 and 5.2.9 of RFC 7401) |
| Parameters.DecodedReprints | hip-dex/protocol/HipParamFactory.cpp:67-102 | printing any decoded parameter gives back the payload that was read, except for a reserved byte and the type and length of a domain, which decoding ignores |
| Parameters.DecodePrinted | hip-dex/protocol/HipParamFactory.cpp:67-102 | decoding a printed parameter at its offset in a packet gives it back exactly when it is faithful to the packet's third byte |
| Parameters.SolutionPayload | hip-dex/protocol/HipSolution.cpp:57-97 | splitting the payload of a printed SOLUTION in halves gives back I and J exactly when J is as long as I or one byte longer |
| Parameters.PuzzlePayload | hip-dex/protocol/HipPuzzle.cpp:58-92 | a printed PUZZLE is decoded to the same complexity, lifetime, opaque value and I |
| Parameters.HostIdDecoded | hip-dex/protocol/HipHostId.cpp:55-98 | a printed HOST_ID is decoded with its packed 16-bit and 12-bit lengths to the same identity and domain, exactly when its domain type is the upper half of byte 2 of the packet |
| Parameters.DecodedLength | hip-dex/protocol/HipParameter.cpp:44-67 | in packets of at most 65568 bytes a decoded parameter has the type and length of its TLV, is not empty and stays inside the packet |
| Parameters.ZeroLengthDecoded | hip-dex/protocol/HipParameter.cpp:35-42 | with one byte more, a parameter can be decoded whose 16-bit padded length is 0 |
| Packets.HipPacket.FromBytes | hip-dex/protocol/HipPacket.cpp:45-79 | clears bytes 4 and 5 of its argument, refuses with the object unchanged when the checksum does not match, and otherwise updates the object and reports as the specification of parsing says, on every input including malformed ones |
| Packets.HipPacket.ReadParameters | hip-dex/protocol/HipPacket.cpp:63-78 | the parse loop, by the remaining bytes, appends what decoding from offset 40 yields and stops for the same reason |
| Packets.HipPacket.Serialise | hip-dex/protocol/HipPacket.cpp:81-118 | the bytes built by appending, with the checksum filled in last, are the printed packet |
| Packets.HipPacket.Length | hip-dex/protocol/HipPacket.cpp:173-181 | header plus padded lengths of the parameters |
| Packets.HipPacket.CalculateCmac | hip-dex/protocol/HipPacket.cpp:135-171 | the CMAC of the header, with the length of the covered parameters only, and of the parameters below HIP_MAC_3; `MacLaws` says what these bytes determine |
| Packets.HipPacket.GetParameter | hip-dex/protocol/HipPacket.cpp:193-200 | the first parameter of the type, or none |
| Packets.HipPacket.VerifyCmac | hip-dex/protocol/HipPacket.cpp:202-213 | true exactly when the first HIP_MAC_3 exists and holds the CMAC; without one it is false whatever the parameters are, as nothing is printed |
| PacketLaws.PrintedChecksum | hip-dex/protocol/HipPacket.cpp:112-115 | a printed packet passes the checksum test, and clearing its field gives the bytes it was computed over |
| PacketLaws.PrintedHeader | hip-dex/protocol/HipPacket.cpp:91-104 | where the header fields are in a printed packet: next header, kind, version in the upper half of byte 3, controls with the high byte first, sender HIT, receiver HIT |
| PacketLaws.PrintedLength | hip-dex/protocol/HipPacket.cpp:92-94 | byte 1 of a printed packet is its length in units of 8 bytes less one, modulo 256, and byte 3 ends in the bit that marks HIP |
| PacketLaws.RefusesBadSums | hip-dex/protocol/HipPacket.cpp:47-54 | up to 131074 bytes parsing goes on exactly when the whole packet sums to 0 modulo 65535 and the stored checksum is 0xFFFF only for the packet that is otherwise zero; any other is refused and the object untouched |
| PacketLaws.AcceptedSums | hip-dex/protocol/HipPacketFactory.cpp:46-77 | what the factory accepts has a header, one of the four kinds, and such a sum |
| PacketLaws.WordChangeRefused | hip-dex/protocol/HipPacket.cpp:47-54 | a packet whose checksum matches is refused by any object after a change of one aligned word, unless it is between 0x0000 and 0xFFFF outside the checksum field |
| PacketLaws.AcceptedLength | hip-dex/protocol/HipPacket.cpp:63-78 | accepted packets are whole multiples of 8 bytes long |
| PacketLaws.ByteChangeRefused | hip-dex/protocol/HipPacket.cpp:45-79 | no accepted datagram is accepted after a change of any one byte |
| PacketLaws.ParsePrinted | hip-dex/protocol/HipPacket.cpp:63-78 | parsing printed parameters gives the same list exactly when all are faithful |
| PacketLaws.PrintParse | hip-dex/protocol/HipPacket.cpp:45-118 | printing a packet and parsing into any object rebuilds header, HITs and list, after what the object held, exactly when the version fits four bits and all parameters are faithful |
| PacketLaws.UnpackPrinted | hip-dex/protocol/HipPacketFactory.cpp:46-77 | the factory rebuilds a printed packet exactly when its kind is one of the four and the parse succeeds faithfully |
| PacketLaws.PrintInjective | hip-dex/protocol/HipPacket.cpp:81-118 | two such packets with equal bytes are equal |
| PacketLaws.ParseTiles | hip-dex/protocol/HipPacket.cpp:63-78 | on any input of at most 65568 bytes the loop never stalls, and on success the TLVs tile the bytes from 40 to the end |
| PacketLaws.StallsIff | hip-dex/protocol/HipPacket.cpp:63-78 | on any input the loop stalls exactly when it comes to a parameter whose TLV is from 65525 to 65532 bytes long |
| PacketLaws.StallsPastTheBound | hip-dex/protocol/HipPacket.cpp:63-78 | the bound is exact: a packet of 65569 bytes with one MAC of 65525 stalls it |
| PacketLaws.CmacIgnoresMacs | hip-dex/protocol/HipPacket.cpp:135-171 | adding parameters of type HIP_MAC_3 or above leaves the CMAC as it was |
| PacketLaws.SignVerify | hip-dex/protocol/HipPacket.cpp:202-213 | a packet signed by appending its CMAC verifies under the key exactly when it carried no MAC before, or a right one |
| PacketLaws.SignPrintParseVerify | hip-dex/protocol/HipPacket.cpp:45-213 | a packet without a MAC that is signed, printed and parsed is the signed packet and verifies |
| MacLaws.CoveredConcat | hip-dex/protocol/HipPacket.cpp:140-167 | selecting what is under the MAC goes parameter by parameter, in order |
| MacLaws.CoveredOne | hip-dex/protocol/HipPacket.cpp:164-167 | a parameter is under the MAC exactly when its type is below HIP_MAC_3 |
| MacLaws.CmacInputIff | hip-dex/protocol/HipPacket.cpp:135-171 | two packets feed the same bytes to the CMAC exactly when next header, kind, four-bit version, controls and both HITs agree and the covered parameters print alike |
| MacLaws.CmacInputDetermines | hip-dex/protocol/HipPacket.cpp:135-171 | and, for faithful parameters, exactly when the covered lists are the same |
| MacLaws.TamperedVerifiesIff | hip-dex/protocol/HipPacket.cpp:202-213 | a packet that verified, changed in any way that keeps its MAC, verifies exactly when no covered header field changed and the covered parameters print alike, if the MAC tells the two inputs apart |
| MacLaws.ReplacedFails | hip-dex/protocol/HipPacket.cpp:202-213 | so it does not verify with one covered parameter replaced by another that prints differently |
| MacLaws.GroupListProtected | hip-dex/protocol/HipPacket.cpp:202-213 | lawful primitives exist with which this happens for every packet and every two group lists |
| Crypto.CbcRoundTrip | hip-dex/protocol/AesCbc.cpp:40-54 | CBC decryption undoes encryption for every key, vector and number of blocks |
| Crypto.CbcChains | hip-dex/protocol/AesCbc.cpp:40-54 | each encrypted block is the cipher of its plain block combined with the encrypted block before it, the first with the vector |
| KeyDeriv.HipKeyDeriv.DeriveKeys | hip-dex/protocol/HipKeyDeriv.cpp:38-109 | for any key lengths that reserve 64 bytes or more in whole blocks, appends to the four key fields the split by HIT order of material whose blocks are chained |
| KeyDeriv.HipKeyDeriv.Expand | hip-dex/protocol/HipKeyDeriv.cpp:62-93 | the expand loop fills exactly the reserved bytes, and each block of the result is the MAC of the block before it, the HITs, the label and its number |
| KeyDeriv.KeymatIff | hip-dex/protocol/HipKeyDeriv.cpp:62-93 | the material of n rounds is the one string of that length whose blocks are chained like that |
| KeyDeriv.DeriveRecurrence | hip-dex/protocol/HipKeyDeriv.cpp:38-109 | on the four keys themselves: under the MAC of secret, smaller HIT, larger HIT and CKDF-Extract, each key is the MAC of the key before it, the HITs, CKDF-Expand and its number, beginning with 0 and with the side that has the larger HIT |
| KeyDeriv.DeriveSymmetric | hip-dex/protocol/HipKeyDeriv.cpp:38-109 | swapping the two HITs swaps initiator and responder keys, exactly when the HITs differ or the halves of the material are equal |
| KeyDeriv.KeysPartition | hip-dex/protocol/HipKeyDeriv.cpp:95-108 | the four keys partition the key material, in the order that the HITs determine |
| AesCtr.CAesCtr.constructor | hip-dex/protocol/AesCtr.cpp:26-44 | the last four bytes of the vector are cleared and the stream starts at block 1 |
| AesCtr.CAesCtr.Generate | hip-dex/protocol/AesCtr.cpp:62-79 | the carry loop steps the 32-bit big-endian counter to the next number and leaves the other twelve bytes alone |
| AesCtr.CAesCtr.Encrypt | hip-dex/protocol/AesCtr.cpp:50-59 | after any history, byte p of the stream is XORed with byte p mod 16 of the cipher block for counter 1 + p/16 |
| AesCtr.CarryAddsOne | hip-dex/protocol/AesCtr.cpp:64-73 | the byte carries add one modulo 2^32 |
| AesCtr.KeyStreamAt | hip-dex/protocol/AesCtr.cpp:26-79 | byte p of the key stream is byte p mod 16 of the cipher of the nonce followed by the four bytes that encode 1 + p/16 modulo 2^32 |
| AesCtr.CtrSplit | hip-dex/protocol/AesCtr.cpp:50-59 | two calls encrypt like one call on the concatenation, wherever the first stopped |
| AesCtr.CtrInvolution | hip-dex/protocol/AesCtr.cpp:50-59 | encrypting again from the same position decrypts |
| AesCtr.CounterRepeats | hip-dex/protocol/AesCtr.cpp:62-79 | two counter blocks are equal exactly when their numbers agree modulo 2^32 (NIST SP 800-38A, appendix B.1) |
| Puzzle.Ltrunc | hip-dex/protocol/HipUtils.cpp:30-46 | the loop keeps the leading k bits and clears the rest of the last byte |
| Puzzle.TruncatedZeroIff | hip-dex/protocol/HipUtils.cpp:30-46 | the truncation to k bits of n bytes is all zero exactly when the big-endian number is below 2^(8n-k) |
| Puzzle.TruncatedBits | hip-dex/protocol/HipUtils.cpp:30-46 | bit by bit: the first k bits are kept, what is left of the last byte is clear |
| Puzzle.SolveR | hip-dex/protocol/HipPuzzleUtil.cpp:57-89 | returns the first drawn candidate whose truncated MAC is zero, or is still searching |
| Puzzle.FirstSolution | hip-dex/protocol/HipPuzzleUtil.cpp:57-89 | what is found solves the puzzle; nothing found means that no candidate does |
| Puzzle.FirstSolutionAt | hip-dex/protocol/HipPuzzleUtil.cpp:57-89 | it is the first drawn candidate that does |
| Puzzle.VerifyPuzzle | hip-dex/protocol/HipPuzzleUtil.cpp:91-112 | true exactly when the puzzle is the one issued for the two HITs and the solution solves it |
| Puzzle.SolvesIff | hip-dex/protocol/HipPuzzleUtil.cpp:57-112 | a value solves a puzzle exactly when its MAC as a number is below 2^(128-k) |
| Puzzle.PuzzleBindsHits | hip-dex/protocol/HipPuzzleUtil.cpp:37-55 | the puzzle values for two pairs of HITs are equal exactly when both HITs are, if the MAC tells the pairs apart |
| SaStore.CsadbEntry.constructor | hip-dex/daemon/DexDaemon.h:47-61 | the sending cipher starts with the local key and the remote vector, the receiving one the other way round, both at position 0 |
| SaStore.EncryptWith | hip-dex/daemon/DexDaemon.cpp:284-295 | without an entry nothing is written; with one, the bytes are encrypted from the sending cipher's position, which moves on |
| SaStore.DecryptWith | hip-dex/daemon/DexDaemon.cpp:297-308 | the same with the receiving cipher |
| SaStore.Csadb.StoreSA | hip-dex/daemon/DexDaemon.cpp:63-78 | the first entry for the address goes and a fresh one, with both ciphers at their start, comes last |
| SaStore.Csadb.FindSA | hip-dex/daemon/DexDaemon.cpp:80-95 | the first entry for the address, or none |
| SaStore.Csadb.RemoveSA | hip-dex/daemon/DexDaemon.cpp:97-114 | the first entry for the address goes, the others keep their order |
| SaStore.StoreRefinesMap | hip-dex/daemon/DexDaemon.cpp:63-114 | after any sequence of stores and removals there is at most one entry for an address and a search finds the one last stored and not removed |
| SaStore.CrosswiseStreams | hip-dex/daemon/DexDaemon.h:47-61 | with crosswise keys each end's receiving stream undoes the other's sending stream at every position |
| ConnectionStates.HistoryOfState | hip-dex/daemon/Connection.cpp:40-54 | over every event sequence, which of the five reachable states a connection is in is an if-and-only-if on the shape of its history: ESTABLISHED exactly when it ends Initiate, R1, R2 with only ignored events in between, R2-SENT exactly when it ends with an I2 and then neither Initiate nor I1, and so on |
| ConnectionStates.FinalReachable | hip-dex/daemon/Connection.h:29-38 | CLOSING and CLOSED are never reached |
| ConnectionStates.EstablishedIsStable | hip-dex/daemon/I2Handler.cpp:49-54 | exactly Initiate and I2 take a connection out of ESTABLISHED |
| Handshake.Connection.HandleI1 | hip-dex/daemon/I1Handler.cpp:52-73 | sends the printed R1 with the puzzle for the two HITs, leaving the connection alone |
| Handshake.Connection.HandleR1 | hip-dex/daemon/R1Handler.cpp:59-133 | for puzzle values of 16 bytes, solves, derives, seals and signs: the new fields and the printed I2, or a fault, or a search still under way, are those of the specification |
| Handshake.Connection.HandleI2 | hip-dex/daemon/I2Handler.cpp:65-173 | checks puzzle, MAC and echo in this order, keeps the keys of a failed MAC, stores the association and sends the printed R2, as the specification says on every packet |
| Handshake.Connection.HandleR2 | hip-dex/daemon/R2Handler.cpp:52-105 | checks MAC, group list and echo in this order and stores the association, as the specification says on every packet |
| Handshake.Connection.Handle | hip-dex/daemon/Connection.cpp:40-54 | the gate, the handler and the move to the next state refine the dispatch function on fields, bytes sent and store |
| Handshake.OpenSession | hip-dex/daemon/I2Handler.cpp:104-118 | a session value comes out exactly when key, vector and data have fitting sizes and the data decrypts to that value followed by as much of the puzzle value as the data holds; data of more than two blocks is a mismatch exactly when its second block is not the puzzle value |
| HandshakeLaws.KeysAgree | hip-dex/daemon/R1Handler.cpp:66-88 | both ends derive the same four keys with the roles swapped |
| HandshakeLaws.AssociationsFit | hip-dex/daemon/I2Handler.cpp:136-152 | associations made from equal session values fit crosswise; from different ones, exactly when the keys coincide |
| HandshakeLaws.I2Travels | hip-dex/daemon/R1Handler.cpp:115-131 | every honest I2 is printable and rebuilt by the other end's factory |
| HandshakeLaws.R2Travels | hip-dex/daemon/I2Handler.cpp:158-169 | every honest R2 likewise |
| HandshakeLaws.MacOfI2 | hip-dex/daemon/I2Handler.cpp:101-102 | the MAC of an honest I2 verifies under the responder's remote key |
| HandshakeLaws.MacOfR2 | hip-dex/daemon/R2Handler.cpp:59-60 | the MAC of an honest R2 verifies under the initiator's remote key |
| HandshakeLaws.KeyOpens | hip-dex/daemon/R2Handler.cpp:65-77 | a sealed session value opens under the same key, echo included |
| HandshakeLaws.InitiatorAnswersR1 | hip-dex/daemon/R1Handler.cpp:59-133 | to the honest R1 the initiator sends the honest I2 once a drawn candidate solves the puzzle |
| HandshakeLaws.ResponderAcceptsI2 | hip-dex/daemon/I2Handler.cpp:65-173 | the responder accepts an honest I2 in full: every check passes, the initiator's session value is recovered, the association stored and the honest R2 sent |
| HandshakeLaws.InitiatorAcceptsR2 | hip-dex/daemon/R2Handler.cpp:52-105 | an initiator that answered an R1 accepts an honest R2 in full, with its current session value |
| HandshakeLaws.EstablishedStoresIff | hip-dex/daemon/R2Handler.cpp:52-105 | an initiator that any R2 establishes stores an association exactly when there was a MAC and MAC, group list and echo were right |
| HandshakeLaws.R2WithoutMacEstablishes | hip-dex/daemon/Connection.cpp:46-50 | an R2 without a MAC, whatever else it holds, establishes the connection and stores nothing |
| HandshakeLaws.DispatchFollowsGate | hip-dex/daemon/Connection.cpp:40-54 | whatever the packet, a handler that returns leaves the state that the gate prescribes |
| HandlerLaws.AnsweredI1 | hip-dex/daemon/I1Handler.cpp:52-73 | any I1 that the gate admits is answered with an R1 to its sender with the puzzle for the two HITs, its parameters in ascending order; nothing is stored and only the state changes |
| HandlerLaws.AnsweredR1Iff | hip-dex/daemon/R1Handler.cpp:59-133 | on any R1 the handler crashes exactly when a parameter is missing or has a wrong size, searches exactly while no candidate solves the puzzle, and else takes over keys, puzzle value and session value and answers with the I2 for the first solution, sealed and signed |
| HandlerLaws.AnsweredI2Iff | hip-dex/daemon/I2Handler.cpp:65-173 | an I2 that the handler returns from is answered, and an association stored, exactly when the gate admits it, SOLUTION, HOST_ID, ENCRYPTED_KEY and HIP_MAC_3 are there, the puzzle is the one issued for the two HITs, the solution leaves eight zero bits, the MAC is right under the key derived from the HOST_ID, and the session value opens; what is kept, sent and stored then, and that otherwise the session values stay |
| HandlerLaws.FaultsI2Iff | hip-dex/daemon/I2Handler.cpp:65-118 | exactly which packets the handler does not return from |
| HandlerLaws.SentI2 | hip-dex/daemon/R1Handler.cpp:99-131 | the I2 goes back to the sender of the R1 with the solution, the cipher, the sealed session value, the own public key and the right MAC, in ascending order |
| HandlerLaws.SentR2 | hip-dex/daemon/I2Handler.cpp:154-169 | the R2 likewise, with the responder's session value and its group list |
| HandlerLaws.AcceptedR2Iff | hip-dex/daemon/R2Handler.cpp:52-105 | an R2 that the handler returns from stores an association exactly when the gate admits it, ENCRYPTED_KEY, DH_GROUP_LIST and HIP_MAC_3 are there, the MAC is right, the groups are those offered and the session value opens; it is made from the session value sent last and the one received; nothing is ever sent |
| HandlerLaws.FaultsR2Iff | hip-dex/daemon/R2Handler.cpp:52-77 | exactly which packets the handler does not return from |
| HandshakeRuns.TurnKeepsHonest | hip-dex/daemon/Connection.cpp:40-54 | every delivery, repetition, restart or removal keeps the invariant of honest worlds and crashes neither end |
| HandshakeRuns.RunsAreSafe | hip-dex/daemon/ClientHandler.h:52-69 | in no run does a possible turn crash either end |
| HandshakeRuns.RunsAgree | hip-dex/daemon/R2Handler.cpp:79-94 | in every run an established initiator and the responder hold associations that fit crosswise exactly when their session values give the same keys, in particular when the values are the same |
| HandshakeRuns.ExchangeAgrees | hip-dex/daemon/I2Handler.cpp:65-173 | from every reachable world an undisturbed exchange goes through all handlers and leaves crosswise associations |
| HandshakeRuns.OvertakenDisagrees | hip-dex/daemon/R2Handler.cpp:79-94 | an initiator that starts anew before R2 arrives accepts the old R2 with its newer session value; the associations then fit exactly when the keys coincide |
| HandshakeRuns.RepeatedDisagrees | hip-dex/daemon/I2Handler.cpp:128-152 | a responder that is given the I2 again before R2 arrives replaces its association; the initiator's, made from the first R2, then fits exactly when the keys coincide |
| Agreement.OneExchangeAgrees | hip-dex/daemon/R2Handler.cpp:52-105 | in every run with at most one start and at most one I2 given to the responder, the associations of an established initiator and the responder fit crosswise |
| Agreement.FitIffSameSessions | hip-dex/daemon/R2Handler.cpp:52-105 | in every run whose drawn session values give different keys for different pairs, the associations of an established initiator and the responder fit exactly when both their session values are equal |
| Agreement.ToyNoCollisions | hip-dex/protocol/HipKeyDeriv.cpp:38-109 | there are lawful primitives and session values that meet this condition |
| Agreement.RestartDisagrees | hip-dex/daemon/R2Handler.cpp:79-94 | for any peers whose search succeeds and session values that give different keys, a run with two starts and one I2 given to the responder, nothing forged or removed, ends established with associations that do not fit |
| Agreement.RepeatDisagrees | hip-dex/daemon/I2Handler.cpp:128-152 | likewise a run with one start and one I2 given to the responder twice |
| Agreement.AgreementFails | hip-dex/daemon/R2Handler.cpp:79-94 | lawful primitives, peers and runs of both kinds exist |
| Daemon.DexDaemon.Create | hip-dex/daemon/ConnectionFactory.cpp:37-53 | the connection for a HIT, made unassociated when there is none; no other connection changes |
| Daemon.DexDaemon.Initiate | hip-dex/daemon/DexDaemon.cpp:155-171 | the connection for the HIT is I1-SENT with the offered group list, no other changes, and the printed I1 is sent |
| Daemon.InitiateAsksFor | hip-dex/daemon/DexDaemon.cpp:155-171 | what is sent to begin is the I1 of an honest exchange from the own HIT to the other one, and an idle daemon at the other end answers it with that exchange's R1 |
| Daemon.DexDaemon.Receive | hip-dex/daemon/ClientHandler.h:52-69 | a datagram changes only the connection of its sender, and changes, replies and stores as the specification of an incoming datagram says |
| Daemon.Rebuild | hip-dex/protocol/HipPacketFactory.cpp:46-77 | the factory's result for every byte vector, built in place |
| Framing.MessagesExtend | src/main.c:662-687 | more bytes never take a message back: they only extend what follows the last one |
| Framing.NothingLost | src/main.c:662-687 | messages and rest make up the stream |
| Framing.WholeMessages | src/main.c:551-574 | a stream of whole messages is framed into them, with nothing left |
| Channel.SendMessage | src/main.c:2364-2439 | without an association of the address nothing goes out and the result is -1; with one, what goes out is the prefix of the whole encrypted message that the socket took; 0 is returned exactly when that is all of it; the cipher moves by the whole message |
| Channel.SendAll | src/main.c:2400-2431 | the loop keeps sent plus left equal to the length and stops with 0, -1 or nothing yet for the stated reason |
| Channel.TakenMeaning | src/main.c:2400-2431 | what goes out is what the socket takes before its first error, or the whole message if that is less |
| Channel.Client.ReceiveMessage | src/main.c:621-727 | one call finds the association of the address, returns the first message of leftovers followed by decrypted chunks and leaves exactly the bytes after it, or fails, ends or blocks for the stated reason |
| Channel.Client.ParseSection | src/main.c:650-688 | a section completes the message exactly when the parser says so, and the bytes not handled stay in the buffer |
| Channel.Client.Fill | src/main.c:690-713 | a chunk is decrypted into the buffer only when nothing in it is waiting |
| Channel.HandlerThread | src/main.c:551-582 | the messages handed over are those of the decrypted stream, whatever the chunk boundaries; the thread blocks exactly when all chunks are used up and the rest is incomplete, and otherwise takes the client out of the table |
| Channel.Continues | src/main.c:563-573 | a received message is the first of the stream and leaves the rest of it; any other outcome means that the stream holds none |
| ChannelLaws.DecryptsIff | hip-dex/daemon/DexDaemon.cpp:284-308 | what any sequence of complete and partial sends put on the wire decrypts to the bytes meant exactly when the two ends' key bytes are in step |
| ChannelLaws.ChannelDelivers | src/main.c:2364-2439 | crosswise associations and complete sends: the receiver's stream is the bytes sent, its messages are the messages sent, in order, nothing left |
| ChannelLaws.PartialSendDesynchronises | src/main.c:2379-2431 | after a send that went out in part the next message decrypts right exactly when the key bytes at the two positions coincide |
| ChannelLaws.PartialSendFails | src/main.c:2379-2431 | lawful primitives and a send that leaves one byte behind exist after which the next message is decrypted wrong |
| ChannelLaws.SecuredChannel | src/main.c:621-727 | an undisturbed exchange from any reachable world leaves associations that deliver every message in both directions |
| ChannelObjects.StartsPaired | hip-dex/daemon/DexDaemon.h:47-61 | the ciphers of two fresh entries with crosswise keys are paired in both directions |
| ChannelObjects.RoundTrip | hip-dex/daemon/DexDaemon.cpp:284-308 | what one entry's cipher encrypts the paired entry's cipher decrypts to the same bytes, and the pair stays paired |
| ChannelObjects.Converse | hip-dex/daemon/DexDaemon.cpp:284-308 | over any sequence of encryptions and decryptions at both ends, in any pieces, each end has out exactly what the other put in, as far as it asked, and the rest is on the wire |
| ChannelObjects.SendMessages | src/main.c:2364-2439 | sends over a freshly stored entry put out the wire of its association from position 0, and a result is 0 exactly for a message that went out whole |
| ChannelObjects.SendAndHandOver | src/main.c:551-582 | over the objects made by storing crosswise associations: when all sends are whole, each is one message, and what arrives is what was put out, in any pieces, the other end's thread hands over exactly those messages, and blocks exactly when no end or error came |
| Traffic.StepKept | src/main.c:2364-2439 | from ends in step every read gives what was meant, and sends, reads and turns that store nothing keep them in step, except exactly a send that goes out in part |
| Traffic.SmoothStaysInStep | hip-dex/daemon/DexDaemon.cpp:284-308 | so does every mixture of full sends both ways, reads of any size and turns that store nothing |
| Traffic.StoreInStepIff | hip-dex/daemon/DexDaemon.cpp:63-78 | after an end stores an association that fits the other's, the ends are in step exactly when the other has read nothing since its own store, nothing is on the way to it, and all that it has sent since is still on the way |
| Traffic.ExchangeInStep | hip-dex/daemon/DexDaemon.h:47-61 | an undisturbed exchange with nothing on the way leaves the ends in step, from any reachable world and whatever traffic went before |
| Traffic.TrafficAfterExchange | hip-dex/daemon/DexDaemon.cpp:284-308 | after it everything sent in full is read right, however messages, reads and turns that store nothing are mixed |
| ChannelLaws.SameSessionsDeliver | hip-dex/daemon/R2Handler.cpp:79-94 | from ciphers at their start, so does every run that leaves both ends with the same session values |
| RequestKey.GetRequestKey | src/main.c:2265-2286 | the digit loop, with C's truncating division, builds the key for every 32-bit message number |
| RequestKey.DigitsNumber | src/main.c:2274-2280 | the digits determine the number, of either sign and for 0 |
| RequestKey.KeyInjective | src/main.c:2265-2286 | keys are equal exactly when nodeids and message numbers are |
| RequestKey.KeyNulFree | src/main.c:2265-2286 | a key holds no NUL exactly when the nodeid holds none, so comparing C strings compares keys |
| RequestKey.RequestTable.Add | src/main.c:2240-2263 | the string-keyed table acts as a map by nodeid and message number: a taken pair is left alone and reported |
| RequestKey.RequestTable.Get | src/main.c:2288-2300 | the waiter of the pair, or none |
| RequestKey.RequestTable.Remove | src/main.c:2302-2317 | exactly the entry of the pair goes |
| Requests.StepKeepsInv | src/main.c:773-848 | every step of a thread or callback keeps the invariant of table, waiters, callbacks and answers |
| Requests.TableIsRegistered | src/main.c:2240-2317 | in every interleaving table entries correspond one to one to the requests that registered and have not been removed, each under its own key |
| Requests.NoStepTouchesTheDestroyed | src/main.c:2207-2238 | no step of a thread or callback touches a destroyed waiter |
| Requests.NoneSleepsReady | src/main.c:2163-2179 | no thread sleeps unsignalled on a waiter that is ready |
| Requests.AnsweredOnce | src/main.c:834-844 | each request is answered at most once, on its own descriptor, with its own nodeid and message number |
| Requests.NothingHangs | src/main.c:1827-1852 | when nothing more can happen, every request was refused, answered, or had no answer that could be built |
| Requests.PhaseTellsHistory | src/main.c:773-848 | where a request's thread is tells whether its key was taken when it registered and whether its answer was built |
| Requests.AnsweredIff | src/main.c:773-848 | at rest a request has been answered exactly when its key was free when it registered and its own answer could be built |
| Requests.EveryRequestAnswered | src/main.c:834-844 | when answers can be built, a run at rest has answered every accepted request and the table is empty |
| ThreadPool.CThreadPool.Assign | hip-dex/daemon/ThreadPool.cpp:43-54 | queues the task and wakes one sleeper, unless closed or null |
| ThreadPool.CThreadPool.Close | hip-dex/daemon/ThreadPool.cpp:56-63 | sets the flag and wakes every sleeper |
| ThreadPool.CThreadPool.Enter | hip-dex/daemon/ThreadPool.cpp:84-101 | the worker's loop head takes the first task, returns when closed, or sleeps |
| ThreadPool.TasksConserved | hip-dex/daemon/ThreadPool.cpp:80-109 | in every reachable state started and queued tasks are the accepted ones in order, and each started one runs on one worker or finished once |
| ThreadPool.AcceptedBeforeClose | hip-dex/daemon/ThreadPool.cpp:43-63 | exactly the tasks offered before the first close, null pointers not counted, are accepted |
| ThreadPool.NoTaskStranded | hip-dex/daemon/ThreadPool.cpp:43-99 | while a worker sleeps the queue is no longer than the number of notified workers |
| ThreadPool.AllTasksRun | hip-dex/daemon/ThreadPool.cpp:56-69 | a pool with workers is at rest only when every accepted task has run; it is closed exactly when all workers have returned then |
| ThreadPool.NoWorkersNoTasks | hip-dex/daemon/ThreadPool.cpp:25-33 | without workers nothing ever runs |
| RcPtr.Memory.Assign | hip-dex/protocol/RCPtr.h:67-84 | assignment between handles of one pointee does nothing; otherwise the new counter rises before the old one falls and, at zero, is deleted with its pointee |
| RcPtr.Memory.Unique | hip-dex/protocol/RCPtr.h:86-93 | a shared handle leaves its counter and gets a copy with a counter of its own |
| RcPtr.Memory.Destroy | hip-dex/protocol/RCPtr.h:52-59 | the last handle deletes pointee and counter |
| RcPtr.CountsLiveHandles | hip-dex/protocol/RCPtr.h:47-93 | after any operations a counter is the number of live handles that share it, deleted once and exactly when there are none |
| RcPtr.DeletedOnce | hip-dex/protocol/RCPtr.h:47-93 | a pointee is deleted once, exactly when no live handle points to it |
| RcPtr.LiveHandlesAreSafe | hip-dex/protocol/RCPtr.h:47-93 | the counter and the pointee of a live handle are never deleted memory |
| RcPtr.OperationsMean | hip-dex/protocol/RCPtr.h:47-93 | after any operations a copy shares, an assigned handle points where the other does, a unique one shares with nobody and keeps its pointee only if it was alone, and no other handle changes |

## Left out

- Sockets, D-Bus and GLib start-up, signals, argument parsing, logging, key files, and the IPv4 and IPv6 socket classes: input and output. What they deliver enters as parameters: bytes received, how much a send took, addresses, confirmations.
- OpenSSL: AES, CMAC, elliptic curves and randomness are arbitrary functions under `Crypto.Suite.Lawful`, and drawn values are parameters. That a MAC tells two inputs apart is a hypothesis on those two inputs where it is needed, since no MAC of 16 bytes tells all apart. Secrecy is not considered.
- The SSAP library is a framing function with the laws of `Framing.Parser.Lawful`; the contents of messages and answers, beyond nodeid, message number and descriptor, are not modelled.
- The subscription loop and its wake-up thread: a single response slot is overwritten and freed outside its lock, so delivery does not hold on every run. Unsubscribing with a duplicate of a request in flight: its removal runs unconditionally.
- The branches for a failed D-Bus send: they remove the waiter, and with it its memory, before reading its descriptor.
- HIPDEX_Initiate's timer: restarts may come at any time in `HandshakeRuns`, its removal of the old association is the `Forget` turn.
- iBeg and iEnd of the cipher object: never read.
- Memory that handlers leak, and allocation failures.
- The parameters' own setters and the single-argument SetBytes: not used by any handler.
- Checksum.AcceptedIff: for at most 131074 bytes, past which the 32-bit accumulator can wrap; `CalcChecksum` itself is specified for any length.
- Parameters.DecodePrinted: for printable parameters, those with a payload of 1 to 65524 bytes; printing reads the first payload byte and longer payloads do not fit the 16-bit padded length. Decoding is defined for all bytes, and R1_COUNTER, ENCRYPTED and ECHO_* parameters, which ignore offset and length, are decoded as rejected or undefined.
- SaStore.CsadbEntry.constructor: for keys of 16 bytes, as all handlers pass; with others the code keeps an entry whose ciphers cannot encrypt.
- Handshake.Connection.HandleR1: a puzzle value of a size other than 16 is a fault; the source goes on with what OpenSSL makes of a key or vector of that size. HandleI2 and HandleR2 treat keys and vectors of wrong sizes alike, and encrypted data that is not of whole blocks, or whose comparison with the puzzle value runs past its end.
- Packets.HipPacket.CalculateCmac: requires the covered parameters to be printable, as printing them reads the first payload byte.
- KeyDeriv.HipKeyDeriv.DeriveKeys: for reserved sizes of 64 bytes or more in whole blocks, of which callers use 64; other sizes read past the material or make the vector grow by an amount that depends on the C++ library. The round number enters the CMAC as its lowest byte, as on a little-endian machine.
- AesCtr.CAesCtr.constructor: requires a vector of 16 bytes, as all callers pass; a key of another size makes an object that cannot encrypt.
- HandshakeRuns.RunsAgree: fixed roles, one initiator and one responder; a host that is both at once towards the same peer is not modelled.
- HandshakeRuns.RunsAreSafe: both ends run the handlers and the network carries only what they sent; what a single handler does with a forged datagram is in `HandlerLaws`, runs with such datagrams are not modelled.
- Channel.HandlerThread: every call finds the association anew, but nothing else stores, removes or uses it during the thread; several sockets from one address share a cipher in the code and would interleave on it. Closing and freeing the client is left out.
- Traffic.StepKept: one connection between the two ends, on which bytes arrive in order; a send without an association, and the loss of a connection with bytes on the way, are not events.
- Channel.SendMessage: the whole socket error check of a round is one outcome, `Refuses`; a socket that keeps taking 0 bytes keeps the loop going.
- Requests.StepKeepsInv: sends to the SIB succeed and each brings one confirmation; waiters and threads are numbered, `Requests.Next` is the model of the handlers rather than code over the table object, and sections that touch only one thread's data are single steps.
- ThreadPool.CThreadPool.Assign: the woken worker is a parameter and each accepted task counts as new; assigning one task object twice would delete it twice. Joining the workers is the state in which all have returned.
- RcPtr.Memory.Assign: a raw pointer is wrapped once; wrapping it twice would make two counters for one pointee. Memory is numbered cells rather than the C++ heap.
