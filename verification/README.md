# A model of the VPN client's protocol engines

This project models, in Dafny 4.11, the protocol engines of a native VPN client and proves what they promise. It holds:

- **the IKEv2 engine**: the request and response window of an IKE SA, retransmission, the cached response and the switch to a rekeyed SA (`Session`, `SessionClass`), two ends of it over a network that drops, repeats, reorders and forges datagrams (`SessionSafety`, `SessionDelivery`, `SessionExchange`, `SessionClash`), its AEAD IVs over its whole life (`SessionIvs`), what a DELETE, a rekey, a wait and a stray datagram do (`SessionDeletes`, `SessionRules`), and the bytes on the wire (`SessionWire`);
- **IKE messages**: payload chains, the Encrypted payload and what it authenticates, fragments and their reassembly, SA payloads, traffic selectors (`Payloads`, `Messages`, `MessageParsing`, `MessageSecurity`, `Reassembly`, `ProposalCodec`, `TrafficSelectors`);
- **ESP**: the replay window and a channel between two mirrored CHILD SAs (`Replay`, `Esp`);
- **algorithms and keys**: offering, selecting and answering through the wire, and the key schedule (`Proposals`, `ProposalChoice`, `KeySchedule`, with the sizes and numbers in `Crypto`);
- **PPP**: one negotiation automaton for LCP and IPCP, the link that stacks the two, and its framing over TLS (`PppOptions`, `PppFsm`, `PppLink`, `PppClass`, `PppRuns`, `PppBounds`, `PppAnswers`, `PppReports`, `PppTerms`, `Framing`);
- **vici**: message trees, packets and the client (`ViciMessage`, `ViciPacket`, `ViciClient`);
- **EAP and resolv.conf** (`Eap`, `ResolvConf`, `ResolvEdit`);
- the remaining formats, byte by byte (`WireLayouts`).

What the source updates in place is a class whose methods are proved equal to functions on values; the laws are lemmas about those functions. The rows below that name a method of a class are this refinement layer: they say that the step by step code computes the function of the same branches, and the laws of that function are the other rows. Cryptography is a parameter: `Crypto.Primitives.Ideal` says that decryption inverts encryption and that MACs have their size, and `Crypto.IdealIsConsistent` that this contradicts nothing; what a datagram authenticates and how keys are derived is stated in the primitives and the inputs alone. Clocks, random numbers and nonces are parameters too, and time is an integer.

`dafny verify dfyconfig.toml` checks the whole project.

## Where the code does less than one would think

- A request and an answer with one message id that are cut in as many fragments are put together as one message, since one reassembler serves both and knows only id and total. `SessionSafety.NoClash` is the condition under which `ExactlyWhatWasAsked` holds, and `SessionClash.ClashBreaksReplies` a run of two ends in which it does not hold without it: for all long payloads that begin differently, an end takes for its reply what nobody sent. The condition is sufficient and not necessary: a clash does nothing when the fragments together do not parse, and no harm when they are the message taken (`SessionClash.ClashIsTaken`); for messages of one payload that is exactly when their first fragments are alike (`SessionClash.ClashMixesData`).
- `prf+` fails on its 255th block, one block before the limit its own message names: it can make 254 (`KeySchedule.ExpandKey`). No algorithm set asks for that many.
- PPP stays up after LCP is closed by a packet, and delivers packets after the Down: after four kinds of packets, and no other (`PppReports.UpOutlivesLcp`).
- An Up can follow a Down: if and only if the link was opened after Down had been reported, or IPCP was rejected while an Up could still come (`PppReports.UpFollowsDown`). Both happen (`PppReports.UpAfterClose`, `PppReports.UpAfterRejection`).
- A Configure-Nak that comes late still gets a request (`PppReports.LateNakAsksAgain`).
- The vici client takes a late answer for the next command's if the daemon sent a packet out of turn (`ViciClient.LateAnswerMisleads`).
- resolv.conf comes back as it was if and only if the new search line is no other line of the file (`ResolvConf.RestoreUndoesEdit`).
- An empty packet can be framed for the SSL-VPN tunnel, but its frame is refused by the reader (`Framing.SentIsRead`).

## Model

| member | source | states |
|---|---|---|
| SessionSafety.ExactlyWhatWasAsked | crates/ikev2/src/session.rs:414-610 | over every run of two ends on a hostile network, each end executes a prefix of the other's requests, in order, each once and unchanged; every reply is the answer made when that very request was executed; no request gets two replies |
| SessionSafety.RepeatGetsSameAnswer | crates/ikev2/src/session.rs:529-547 | over every run, a request that comes again after it was answered, whole or any fragment of it, gets the datagrams of that answer again and executes nothing |
| SessionExchange.ExchangeCompletes | crates/ikev2/src/session.rs:414-679 | every run whose ends are at rest goes on, for any request that encodes, split or not, until the other end has executed it and, if an answer can be made and received, this end has it for reply and waits no more; to a probe there is always such an answer |
| SessionSafety.OpenHears | crates/ikev2/src/session.rs:481-506 | what opens, whole or out of fragments, is a message of the peer with all its payloads; the fragments kept stay those of one message; and a datagram is refused if and only if its key or the number of its fragments is wrong |
| SessionSafety.StepKeepsInv | crates/ikev2/src/session.rs:414-573 | every step of either end keeps the logs, the cached and the waiting datagrams and the network in agreement |
| SessionDelivery.MessageIsTaken | crates/ikev2/src/session.rs:481-606 | the datagrams of a message, split or not, in their order make an end take that message, and nothing before the last one |
| SessionClash.ClashBreaksReplies | crates/ikev2/src/session.rs:500-505 | without the condition of the above: two ends that ask at once reach a reply that answers no request, for all long payloads that begin differently |
| SessionClash.ClashIsTaken | crates/ikev2/src/session.rs:447-506 | an end given the first fragment of one message and the others of another, of one id and in as many fragments, takes what they are together for the second, if and only if that parses |
| SessionClash.ClashMixesData | crates/ikev2/src/session.rs:589-596 | for messages of one payload that is the beginning of the one's data and the end of the other's; it is what was sent if and only if the data begin alike |
| SessionIvs.IvsNeverRepeat | crates/ikev2/src/session.rs:414-418 | over every run of one end, rekeyed SAs included and whatever comes in, two datagrams sent under one key with one IV are one datagram sent again |
| SessionIvs.NewIdReusesNothing | crates/ikev2/src/session.rs:603-610 | what is sealed with an id not counted yet has an IV no datagram before it has |
| SessionIvs.RespondKeeps | crates/ikev2/src/session.rs:683-692 | a response, also one after which the rekeyed SA takes over with counters at 0, keeps all IVs distinct |
| SessionIvs.WrapRepeatsIv | crates/ikev2/src/session.rs:418 | the bound on ids is needed: after the last id the IV of request 0 comes again on another message |
| SessionDeletes.DeleteDoes | crates/ikev2/src/session.rs:613-679 | an INFORMATIONAL request, read off the bytes of its DELETEs: just the CHILD SAs named go, each once, and the answer names just their inbound SPIs; a DELETE of the IKE SA, or of the last CHILD SA while up, ends it, so that the rekeyed SA takes over or else the end is down; without one neither changes |
| SessionDeletes.ArrivingDeleteDoes | crates/ikev2/src/session.rs:513-573 | and so does the datagram with which such a request arrives, whole or as the last fragment |
| SessionDeletes.RekeyTakesOver | crates/ikev2/src/session.rs:683-731 | after an answered rekey and an answered DELETE of the old SA, SPIs and keys are those of the new SA, both counters are 0, the cache is empty and the peer is the initiator |
| SessionRules.OthersDoNothing | crates/ikev2/src/session.rs:481-573 | a datagram of another SA, under another key, with another id, or a response nobody waits for changes nothing and sends nothing |
| SessionRules.AskDoes | crates/ikev2/src/session.rs:389-418 | a request goes out under this end's SPIs, flag and key with the next id, which is consumed modulo 2^32 and waited for; one that does not encode changes nothing |
| SessionRules.AnswersAreFrom | crates/ikev2/src/session.rs:397-403 | every datagram of an answer carries the request's id and exchange and the SPIs, flag and key of the SA it came to, also when that SA ends with it |
| SessionRules.WaitEnds | crates/ikev2/src/session.rs:442-470 | a wait ends with an authentic response to that very request, or with the session, and with nothing else |
| SessionRules.SentFiveTimes | crates/ikev2/src/session.rs:424-477 | a request without a response is sent five times in all, the same datagrams each time, and given up; nothing else changes |
| SessionRules.CreateChildDoes | crates/ikev2/src/session.rs:696-738 | a rekey changes just the pending IKE SA, or adds the CHILD SA and marks the one it replaces, if and only if its answer encodes; else the request is refused and nothing changes |
| SessionRules.OtherExchangeDoes | crates/ikev2/src/session.rs:551-572 | a request of another exchange is answered INVALID_SYNTAX and changes nothing |
| SessionWire.SealedIsWire | crates/ikev2/src/session.rs:380-387 | the session model fails to seal just when the encoder does; otherwise each datagram of bytes carries the head, the content and the IV of the one the model keeps |
| SessionWire.WireIvsNeverRepeat | crates/ikev2/src/message/mod.rs:452-466 | over every run, two datagrams of bytes under one AEAD key with one explicit IV are one datagram sent again |
| SessionClass.IkeSession.OpenPacket | crates/ikev2/src/session.rs:497-505 | decrypts and reassembles as the specification, and changes only the reassembler |
| SessionClass.IkeSession.OpenResponsePacket | crates/ikev2/src/session.rs:481-506 | the new state and the payloads of a response, with each refusal of another SA or of the wrong protection |
| SessionClass.IkeSession.OpenRequestPacket | crates/ikev2/src/session.rs:577-600 | the new state and the request, or the refusal |
| SessionClass.IkeSession.SendResponse | crates/ikev2/src/session.rs:603-610 | a response is sent and kept, or neither |
| SessionClass.IkeSession.HandlePayloads | crates/ikev2/src/session.rs:613-665 | the loop over the payloads leaves the CHILD SAs, the answer and the end of the function that SessionDeletes.DeleteDoes pins to the bytes of the DELETEs |
| SessionClass.IkeSession.HandleInformational | crates/ikev2/src/session.rs:613-679 | the answer is sent, and then the SA ends, is switched or stays, as SessionDeletes.DeleteDoes says |
| SessionClass.IkeSession.HandleCreateChildSa | crates/ikev2/src/session.rs:696-738 | a rekey takes effect only if its answer was sent; anything else is refused |
| SessionClass.IkeSession.Switch | crates/ikev2/src/session.rs:683-692 | the whole state after a rekeyed SA took over |
| SessionClass.IkeSession.Handle | crates/ikev2/src/session.rs:513-573 | the new state, what is sent and what is executed, for every packet |
| SessionClass.IkeSession.BeginRequest | crates/ikev2/src/session.rs:414-431 | a request that encodes consumes its id before it is sent; one that does not changes nothing |
| SessionClass.IkeSession.OnDatagram | crates/ikev2/src/session.rs:447-470 | a datagram that comes while a request waits is its response, or handled as any other |
| SessionClass.IkeSession.OnDeadline | crates/ikev2/src/session.rs:424-477 | the same datagrams again, up to five times |
| Messages.FragmentationIsTransparent | crates/ikev2/src/message/mod.rs:402-505 | in any order and with any duplicates, a fresh reassembler gives nothing while a datagram is missing and the original payloads with the last one |
| Messages.FragmentsFitAndOpen | crates/ikev2/src/message/mod.rs:402-436 | a split message is two datagrams at least, none over the limit, and each opens to its piece |
| MessageSecurity.PiecesAreFull | crates/ikev2/src/message/mod.rs:418-435 | the fragments cut the chain, and all but the last carry all there is room for |
| MessageSecurity.DatagramsFit | crates/ikev2/src/message/mod.rs:402-436 | under a limit with room for a byte, no datagram exceeds it, and a message is split if and only if its one datagram would |
| MessageSecurity.DecryptsAuthentic | crates/ikev2/src/message/mod.rs:190-247 | a datagram yields a payload if and only if the primitives authenticate it: under an AEAD the cipher opens all after the IV with all before it as additional data, under CBC the last bytes are the HMAC of all before them |
| MessageSecurity.SealedIsProtected | crates/ikev2/src/message/mod.rs:439-505 | what is sent, byte by byte: the header, the fields, the IV, the cipher's output over the padded text with all before the IV as additional data, and under CBC the HMAC of all before it |
| MessageParsing.HeaderIsRead | crates/ikev2/src/message/mod.rs:68-115 | a header is read if and only if these bytes stand there |
| MessageParsing.ParsesExactly | crates/ikev2/src/message/mod.rs:129-178 | bytes parse to a packet if and only if they are its header, the length is theirs and its payloads stand one after another, an Encrypted one last |
| Messages.SealedOpens | crates/ikev2/src/message/mod.rs:439-505 | what is sealed parses and decrypts to the same piece, type and number, and is as long as its header says; what of it is authenticated is MessageSecurity.SealedIsProtected and MessageSecurity.DecryptsAuthentic |
| Messages.SealedCarriesIv | crates/ikev2/src/message/mod.rs:452-466 | the IV of an AEAD datagram stands in it, made of message id, fragment number and direction |
| Messages.AeadIvIsInjective | crates/ikev2/src/message/mod.rs:456-466 | no two ids, fragment numbers or directions share an IV |
| Messages.WholeRoundTrip | crates/ikev2/src/message/mod.rs:402-436 | a message that is not split comes back whole from its one datagram |
| Messages.PlainRoundTrip | crates/ikev2/src/message/mod.rs:390-399 | an unencrypted message parses to its header and payloads |
| Messages.HeaderRoundTrip | crates/ikev2/src/message/mod.rs:68-115 | a header decodes to what was encoded |
| Messages.UnpadPadded | crates/ikev2/src/message/mod.rs:507-512 | padding fills a block and comes off exactly |
| Messages.ParsePacket | crates/ikev2/src/message/mod.rs:129-178 | the loop over the payloads gives the packet or the refusal the specification says, with the place of the Encrypted payload |
| Messages.SealDatagram | crates/ikev2/src/message/mod.rs:439-505 | the buffer filled step by step is the datagram of the specification that MessageSecurity.SealedIsProtected pins byte by byte, or no datagram when too long |
| Messages.EncodeDatagrams | crates/ikev2/src/message/mod.rs:402-436 | one datagram, or the fragments, or the first failure |
| Payloads.ChainRoundTrip | crates/ikev2/src/message/payload.rs:138-176 | a chain parses back to its payloads if and only if none has the type that ends a chain |
| Payloads.AppendChain | crates/ikev2/src/message/payload.rs:165-176 | the chain appended and the type of its first payload, or the failure |
| Payloads.ReadChain | crates/ikev2/src/message/payload.rs:138-161 | the payloads of a chain, or the refusal |
| Reassembly.NothingUntilComplete | crates/ikev2/src/message/mod.rs:304-331 | whatever the order and the duplicates, nothing comes out while a number is missing |
| Reassembly.WholeOnceComplete | crates/ikev2/src/message/mod.rs:304-331 | with the last missing number the whole message does, with the first piece's type, and the reassembler is as new |
| Reassembly.AddPiece | crates/ikev2/src/message/mod.rs:304-331 | one more piece is kept, or completes the message |
| Reassembly.SameIdAndTotalMix | crates/ikev2/src/message/mod.rs:313-318 | two messages of one id and total are not told apart |
| Reassembly.RefusedUnlessNumbered | crates/ikev2/src/message/mod.rs:304-331 | a piece is refused, and changes nothing, if and only if it has no number, or one that is 0, past the total or of more than 64 |
| Reassembly.Reassembler.AddFragment | crates/ikev2/src/message/mod.rs:304-331 | the new pieces and the whole, or the refusal of a bad numbering |
| TrafficSelectors.DecompositionIsExact | crates/ikev2/src/message/payload.rs:400-424 | the blocks are aligned, in ascending order and disjoint, and cover just the range |
| TrafficSelectors.DecompositionIsShortest | crates/ikev2/src/message/payload.rs:400-424 | no other list of blocks with the same union is shorter |
| TrafficSelectors.NetworkIsOneBlock | crates/ikev2/src/message/payload.rs:373-424 | a network decomposes to itself, for every prefix up to 32 |
| TrafficSelectors.CoversIsInclusion | crates/ikev2/src/message/payload.rs:390-397 | covering is inclusion of what is selected, for selectors with something in them |
| TrafficSelectors.Networks | crates/ikev2/src/message/payload.rs:400-424 | the loop ends and yields the greedy decomposition of the range |
| Replay.WindowIsTheSet | crates/ikev2/src/child.rs:29-63 | after any arrivals the 64-bit window stands for the set of accepted numbers |
| Replay.AcceptRefines | crates/ikev2/src/child.rs:37-62 | a number is accepted if and only if it is not zero, not accepted yet and less than 64 behind, and the window then stands for the set with it |
| Replay.ReplayWindow.AcceptNumber | crates/ikev2/src/child.rs:37-62 | shifting and setting bits is the window of the specification |
| Esp.DeliveredOnceAsSent | crates/ikev2/src/child.rs:176-281 | over every run, each delivery is a packet the other end sent, byte for byte, and none is delivered twice |
| Esp.InTimeIsDelivered | crates/ikev2/src/child.rs:223-281 | over every run, a packet that arrives before the window has moved 64 past it is delivered by then |
| Esp.ForgeryIsInert | crates/ikev2/src/child.rs:238-260 | a packet of another SA, or whose tag is not the HMAC of the bytes before it, or that the AEAD refuses with its header as additional data, changes nothing and delivers nothing |
| Esp.AcceptedIsIntact | crates/ikev2/src/child.rs:223-281 | whatever changes an SA or yields anything carries its inbound SPI and is authentic under the primitives alone |
| Esp.DeliversAuthentic | crates/ikev2/src/child.rs:223-281 | a packet is delivered if and only if its number is new and it stands in the plaintext that the bytes received authenticate |
| Esp.EncapsulatedIsSealed | crates/ikev2/src/child.rs:176-220 | what is sent, byte by byte, under the next number: SPI, number, IV, the cipher's output over packet, padding and next header, and under CBC the HMAC of all before it |
| Esp.IvsNeverRepeat | crates/ikev2/src/child.rs:176-199 | over every run no two packets of an AEAD SA carry one IV |
| Esp.WireCarries | crates/ikev2/src/child.rs:176-281 | what one end wraps the other unwraps to the same number and packet |
| Esp.PaddingAligns | crates/ikev2/src/child.rs:184-192 | padding aligns for every cipher and strips to the packet |
| Esp.NewSasMirror | crates/ikev2/src/child.rs:105-151 | the two ends of one exchange get mirrored keys that are the whole material |
| Esp.ChildSa.Encapsulate | crates/ikev2/src/child.rs:176-220 | the packet on the wire, the number used up and the bytes counted, or the refusal at the last number |
| Esp.ChildSa.Decapsulate | crates/ikev2/src/child.rs:223-281 | the packet delivered, the window and the bytes counted, or the refusal |
| ProposalCodec.ProposalsComeBack | crates/ikev2/src/message/proposal.rs:89-240 | an SA payload decodes to the proposals it was encoded from |
| WireLayouts.ProposalIs | crates/ikev2/src/message/proposal.rs:148-164 | the bytes of a proposal around its transforms |
| WireLayouts.TransformIs | crates/ikev2/src/message/proposal.rs:89-103 | the bytes of a transform, with its key length attribute if it has one |
| ProposalCodec.EncodeProposals | crates/ikev2/src/message/proposal.rs:217-224 | the bytes appended are the encoding, the last proposal marked |
| ProposalCodec.DecodeProposals | crates/ikev2/src/message/proposal.rs:226-240 | the proposals up to the one marked last, or the refusal of anything after it |
| ProposalCodec.TakeProposal | crates/ikev2/src/message/proposal.rs:166-208 | one proposal off the reader, with the reader left after it |
| ProposalCodec.TakeTransforms | crates/ikev2/src/message/proposal.rs:181-197 | the announced number of transforms, with those of unknown types left out and marked |
| ProposalCodec.TakeTransform | crates/ikev2/src/message/proposal.rs:105-133 | one transform off the reader, None of an unknown type |
| ProposalCodec.TakeAttributes | crates/ikev2/src/message/proposal.rs:116-130 | the last key length among attributes of either format |
| Proposals.IkeAgreement | crates/ikev2/src/proposals.rs:164-252 | through the wire, the responder accepts if and only if both ends have a set in common with the group of the KE payload, and the initiator selects exactly that set from the answer |
| Proposals.EspAgreement | crates/ikev2/src/proposals.rs:189-305 | the same for CHILD SAs, with or without groups, the group and the SPI included |
| ProposalChoice.SelectsFirstIke | crates/ikev2/src/proposals.rs:213-257 | of any proposal, of whatever program, the first of our sets that it includes is selected, and it is refused if and only if it includes none, is not for IKE or has an unknown transform type |
| ProposalChoice.SelectsFirstEsp | crates/ikev2/src/proposals.rs:213-305 | the same for ESP, with the group just when the proposal has groups, without extended sequence numbers, and with an SPI of 4 bytes |
| Proposals.IkeOffersItself | crates/ikev2/src/proposals.rs:213-228 | a proposal of one set offers that set only |
| Proposals.EspMatches | crates/ikev2/src/proposals.rs:281-301 | what is negotiated of a proposal of one set and a set of ours |
| Proposals.ParseIke | crates/ikev2/src/proposals.rs:95-131 | one set for each proposal, in order, of the algorithms it names, with an integrity algorithm just when the cipher needs one and the PRF of the integrity algorithm when none is named; refused if and only if there is no proposal, or one has an unknown word, no cipher, no group, or no integrity algorithm or PRF where one is needed |
| Proposals.ParseEsp | crates/ikev2/src/proposals.rs:134-157 | the same for ESP, where a group may be absent |
| Proposals.SplitParts | crates/ikev2/src/proposals.rs:70-88 | an unknown word is refused, and nothing else; otherwise what the words name |
| Proposals.PartsAreLatest | crates/ikev2/src/proposals.rs:70-88 | of each kind the last word is in force, and there is none if no word is of that kind |
| KeySchedule.ExpandKey | crates/ikev2/src/crypto/prf.rs:138-154 | the first bytes of the blocks; the counter overflows if and only if more than 254 blocks are asked for |
| KeySchedule.ShorterIsPrefix | crates/ikev2/src/crypto/prf.rs:138-154 | asking for less gives the beginning of what asking for more gives |
| KeySchedule.EnoughForIke | crates/ikev2/src/sa.rs:47-51 | no IKE algorithm set asks for more blocks than there are |
| KeySchedule.EnoughForEsp | crates/ikev2/src/child.rs:88-90 | nor does any ESP set |
| KeySchedule.PrfPlusIsChain | crates/ikev2/src/crypto/prf.rs:138-154 | the output is the beginning of blocks each of which is the HMAC of the block before it, the seed and its number |
| KeySchedule.DerivedAreKeys | crates/ikev2/src/sa.rs:30-82 | in HMAC and the inputs alone: the keys joined are such a chain over Ni, Nr and the SPIs under HMAC(Ni Nr, g^ir), or HMAC(old SK_d, g^ir Ni Nr) for a rekey, and each has its algorithm's size |
| KeySchedule.KeysAreUnique | crates/ikev2/src/sa.rs:30-82 | no other keys satisfy this |
| KeySchedule.KeysPartitionMaterial | crates/ikev2/src/sa.rs:52-82 | the seven keys are the material cut without gap or overlap, each of its algorithm's size |
| KeySchedule.MirroredKeysCarryMessages | crates/ikev2/src/session.rs:1082-1091 | with one end's keys and the other's swapped, what either seals the other opens |
| KeySchedule.ChildSasMirror | crates/ikev2/src/sa.rs:85-96 | both ends of an exchange make CHILD SAs with mirrored keys |
| KeySchedule.Derive | crates/ikev2/src/sa.rs:30-82 | the moving cursor cuts the slices of the specification, which are the keys of the exchange in HMAC and the inputs alone |
| KeySchedule.MakeChildKeymat | crates/ikev2/src/sa.rs:85-96 | the keying material is the chain under SK_d over g^ir, if there is one, Ni and Nr, of the size the algorithms want |
| PppBounds.LayersStack | crates/sslvpn/src/ppp.rs:640-868 | over every run with one open: LCP open means IPCP negotiates or is open; at most one Up and one Down; packets are delivered after the Up only; without a timer nothing is left to wait for; and the link is up without LCP only after Down |
| PppBounds.UpNeedsLcp | crates/sslvpn/src/ppp.rs:813-852 | an Up comes out of a step that leaves both layers open |
| PppBounds.NegotiationIsBounded | crates/sslvpn/src/ppp.rs:212-278 | over every run with one open, whatever the peer sends: at most 51 LCP and 21 IPCP Configure-Requests, 3 Terminate-Requests, and 41 and 11 timer expiries while negotiating |
| PppBounds.BoundIsReached | crates/sslvpn/src/ppp.rs:256-278 | the bound on Configure-Requests is the least one: a peer silent for all retransmissions that then refuses gets them all |
| PppBounds.StepCosts | crates/sslvpn/src/ppp.rs:691-750 | no step sends more requests than it takes off what is left |
| PppRuns.HandleMoves | crates/sslvpn/src/ppp.rs:281-321 | how a packet can change the state of a layer, and when it goes up or down |
| PppRuns.ExpireMoves | crates/sslvpn/src/ppp.rs:256-278 | an expiry while negotiating brings the end of the negotiation nearer |
| PppRuns.StepAdvances | crates/sslvpn/src/ppp.rs:676-868 | every step but an open keeps the layers stacked and the Ups, Downs and deliveries in order |
| PppAnswers.RequestAnswered | crates/sslvpn/src/ppp.rs:346-408 | the answer to a Configure-Request: an Ack of the very bytes if and only if all options are agreed to, a Reject of just the refused options in order if and only if there are some, a Nak otherwise |
| PppAnswers.RejectsSelect | crates/sslvpn/src/ppp.rs:370-380 | the refused options, all of them, unchanged and in order |
| PppAnswers.CodeRejectFitsPeer | crates/sslvpn/src/ppp.rs:302-327 | every packet of an unknown code gets one Code-Reject unless the layer is closing, which holds the beginning of it and fits the peer if and only if the peer takes 6 bytes |
| PppAnswers.ProtocolRejectFitsPeer | crates/sslvpn/src/ppp.rs:738-747 | the same for the Protocol-Reject that a packet of an unknown protocol gets while LCP is open |
| PppAnswers.UpIsUsable | crates/sslvpn/src/ppp.rs:824-852 | over every run, an Up has specified addresses only, the peer's as agreed, and a size neither the acknowledged MRU nor 1500 exceeds; its exact values are PppTerms.UpIsAsAgreed |
| PppAnswers.ReviewIs | crates/sslvpn/src/ppp.rs:520-533 | which options of the peer are agreed to, get a better value, or are refused |
| PppTerms.UpIsAsAgreed | crates/sslvpn/src/ppp.rs:824-852 | over every run with one open, from the packets: an Up's address is the one a Nak named last and, unless that option was refused, the one our acknowledged request asks for; its nameservers are those the Naks named last, primary first; the peer's address and MRU are those of its acknowledged requests; the size is the smaller of the two MRUs |
| PppTerms.RunFollows | crates/sslvpn/src/ppp.rs:430-477 | over every run, every request of ours asks for just the options not refused, with the values named last; a layer opens only once its last request was acknowledged and with the peer's acknowledged options in force |
| PppTerms.SizeIsAsAgreed | crates/sslvpn/src/ppp.rs:813-822 | over every run, while LCP is open both layers take for the largest packet of the peer what its acknowledged request says |
| PppReports.UpOutlivesLcp | crates/sslvpn/src/ppp.rs:813-822 | with both layers open, a packet leaves the link up without LCP, and Down reported, if and only if it is a Terminate-Request, a Terminate-Ack, a Code-Reject of codes 1 to 7 or a Configure-Request with other options than agreed |
| PppReports.UpDelivers | crates/sslvpn/src/ppp.rs:729-731 | an IP packet is delivered if and only if the link is up, whatever became of LCP |
| PppReports.StepKeepsHonest | crates/sslvpn/src/ppp.rs:676-868 | once Down is reported no Up can come, and every step keeps that but an open after a Down and a rejection of IPCP while an Up can come |
| PppReports.UpFollowsDown | crates/sslvpn/src/ppp.rs:799-808 | over every run with one open: an Up follows a Down if and only if it follows one of these two steps |
| PppReports.UpAfterClose | crates/sslvpn/src/ppp.rs:684-692 | on every link closed before it is opened an Up follows the Down, with a peer that agrees |
| PppReports.UpAfterRejection | crates/sslvpn/src/ppp.rs:799-808 | and on every link whose peer rejects IPCP and then agrees to it |
| PppReports.LateNakAsksAgain | crates/sslvpn/src/ppp.rs:446-474 | a Nak after the end gets a request if and only if fewer than ten were taken |
| PppReports.EchoIsAnswered | crates/sslvpn/src/ppp.rs:780-811 | an Echo-Request gets our magic number and the rest of its data if and only if LCP is open, and changes nothing |
| PppReports.OthersAreIgnored | crates/sslvpn/src/ppp.rs:780-811 | the codes 10 to 13 do nothing |
| PppReports.TerminateIsAcknowledged | crates/sslvpn/src/ppp.rs:296-300 | a Terminate-Request is acknowledged in every state and ends the layer |
| PppReports.CodeRejectDoes | crates/sslvpn/src/ppp.rs:331-344 | a Code-Reject ends the layer if and only if it rejects a code from 1 to 7, and else undoes an Ack at most |
| PppReports.AskedAgainIn3 | crates/sslvpn/src/ppp.rs:212-278 | what asks for an answer sets the timer to 3 seconds |
| PppOptions.ParsesBack | crates/sslvpn/src/ppp.rs:105-127 | options that fit parse back from their encoding |
| PppOptions.EncodesBack | crates/sslvpn/src/ppp.rs:105-127 | what parses is what its options encode to |
| PppOptions.ParseOptions | crates/sslvpn/src/ppp.rs:105-117 | the options of a request, or None |
| PppOptions.EncodeOptions | crates/sslvpn/src/ppp.rs:119-127 | the bytes of the options |
| PppFsm.AnswerFits | crates/sslvpn/src/ppp.rs:381-399 | no answer is longer than the request, so no length overflows |
| PppClass.Automaton.Open | crates/sslvpn/src/ppp.rs:212-218 | the state, counters and timer after an open, and the request sent |
| PppClass.Automaton.Close | crates/sslvpn/src/ppp.rs:229-240 | the state after a close, what is sent and whether an answer is awaited |
| PppClass.Automaton.OnTimeout | crates/sslvpn/src/ppp.rs:256-278 | what an expiry does in every state |
| PppClass.Automaton.Receive | crates/sslvpn/src/ppp.rs:281-321 | what every code does in every state |
| PppClass.Automaton.ReceiveRequest | crates/sslvpn/src/ppp.rs:346-408 | the review loop, the answer and the new state |
| PppClass.Automaton.ReceiveAck | crates/sslvpn/src/ppp.rs:410-428 | the new state after an Ack with the outstanding id, and none after another |
| PppClass.Automaton.ReceiveNakOrRej | crates/sslvpn/src/ppp.rs:430-477 | the options taken over or dropped and the next request, or the end |
| PppClass.Automaton.ReceiveCodeReject | crates/sslvpn/src/ppp.rs:331-344 | fatal for the codes 1 to 7 only |
| PppClass.Ppp.Open | crates/sslvpn/src/ppp.rs:676-680 | the link after an open |
| PppClass.Ppp.Close | crates/sslvpn/src/ppp.rs:684-692 | the link after a close, with Down if nothing is awaited |
| PppClass.Ppp.OnTimeout | crates/sslvpn/src/ppp.rs:702-711 | LCP first, then IPCP, each with what follows |
| PppClass.Ppp.Feed | crates/sslvpn/src/ppp.rs:722-750 | what every packet does |
| PppClass.Ppp.FeedControl | crates/sslvpn/src/ppp.rs:753-777 | a control packet goes to its layer, a bad one is dropped |
| PppClass.Ppp.FeedLcp | crates/sslvpn/src/ppp.rs:780-811 | the codes of LCP beyond the automaton |
| PppClass.Ppp.HandleLcp | crates/sslvpn/src/ppp.rs:813-822 | LCP up opens IPCP, LCP down is reported |
| PppClass.Ppp.HandleIpcp | crates/sslvpn/src/ppp.rs:824-860 | IPCP up brings the link up, with the addresses that PppTerms.UpIsAsAgreed pins, or closes it without one; IPCP down closes LCP |
| PppClass.Ppp.Report | crates/sslvpn/src/ppp.rs:863-868 | Down once |
| Framing.ReadsDoNotMatter | crates/sslvpn/src/tunnel.rs:153-206 | however a stream is read, the same packets go to PPP, the same failure ends it and the same bytes stay |
| Framing.PacketsArriveAsSent | crates/sslvpn/src/tunnel.rs:176-220 | out of the frames of packets of 1 to 65529 bytes come just these, without a failure, and just the incomplete frame stays |
| Framing.SentIsRead | crates/sslvpn/src/tunnel.rs:207-220 | what can be sent can be read, but for the empty packet |
| Framing.Send | crates/sslvpn/src/tunnel.rs:207-220 | the frame of a packet, or the refusal of one over 65529 bytes |
| Framing.Tunnel.UnframeInbox | crates/sslvpn/src/tunnel.rs:176-204 | all whole frames are fed to PPP in order, and the rest stays |
| Framing.Tunnel.TakeFrame | crates/sslvpn/src/tunnel.rs:180-201 | the next frame drained, or what is wrong with it |
| WireLayouts.FrameIsTaken | crates/sslvpn/src/tunnel.rs:176-220 | a packet is the first of an inbox if and only if its sizes, 0x5050 and the whole of it stand there |
| WireLayouts.FrameIsRefused | crates/sslvpn/src/tunnel.rs:180-196 | an inbox is refused if and only if its first 6 bytes are no frame's, as an HTTP answer if and only if it begins like one |
| WireLayouts.ControlIsRead | crates/sslvpn/src/ppp.rs:753-777 | what of a control packet is read is what its length says, if that is there |
| ViciMessage.DecodesExactly | crates/vici/src/message.rs:209-281 | the stack parser is the exact inverse of the recursive printer on trees of at most 64 levels |
| ViciMessage.TreesSurvive | crates/vici/src/message.rs:171-281 | what is encoded decodes to itself if and only if it nests at most 64 levels |
| ViciMessage.BytesSurvive | crates/vici/src/message.rs:171-281 | bytes that decode are what their tree encodes to, if and only if no name is empty |
| ViciMessage.EncodeInto | crates/vici/src/message.rs:180-206 | appends the printed tree, or fails on a name or value that does not fit |
| ViciMessage.DecodeTree | crates/vici/src/message.rs:209-281 | the loop with its stack and open list gives the tree or the refusal |
| ViciMessage.PutNameInto | crates/vici/src/message.rs:290-298 | a name of 1 to 255 bytes with its length, and no other |
| ViciMessage.PutValueInto | crates/vici/src/message.rs:301-306 | a value of up to 65535 bytes with its length, and no other |
| ViciMessage.NextName | crates/vici/src/message.rs:328-332 | the name at the cursor and the cursor after it |
| ViciMessage.NextValue | crates/vici/src/message.rs:334-338 | the value at the cursor and the cursor after it |
| ViciPacket.PacketsSurvive | crates/vici/src/packet.rs:41-106 | a packet has its size before it and comes back if and only if its message nests at most 64 levels |
| WireLayouts.BodyIsRead | crates/vici/src/packet.rs:80-106 | a body decodes to a packet if and only if its number, its name and the rest stand there; what follows a packet without a message means nothing |
| WireLayouts.ItemIs | crates/vici/src/message.rs:180-206 | the bytes of each kind of item |
| WireLayouts.PacketIs | crates/vici/src/packet.rs:41-77 | the bytes of each kind of packet with its size before it |
| ViciClient.AnswersMatchRequests | crates/vici/src/client.rs:93-145 | over every run with a daemon that behaves, wherever futures are dropped: results answer their requests one for one and in kind, and an idle client that is not poisoned has nothing outstanding |
| ViciClient.EventsKeepOrder | crates/vici/src/client.rs:74-175 | over every run events are taken in the order sent, none is lost, and those no callback got come out in that order |
| ViciClient.ChunksDoNotMatter | crates/vici/src/client.rs:148-175 | however a stream is cut in chunks, the same packets come out and the same bytes are left |
| ViciClient.DrainsAsSent | crates/vici/src/client.rs:159-175 | out of the packets a daemon sends come just these |
| WireLayouts.PacketIsTaken | crates/vici/src/client.rs:159-175 | a packet is taken off the buffer if and only if its size, of 1 byte to 512 KiB, stands before it, it is all there and it decodes |
| WireLayouts.PacketIsAwaited | crates/vici/src/client.rs:159-175 | more is waited for if and only if the first packet may still come |
| ViciClient.LateAnswerMisleads | crates/vici/src/client.rs:111-122 | a daemon that does not behave has a late answer taken for the next command's |
| ViciClient.ViciClient.NextPacket | crates/vici/src/client.rs:159-175 | the first packet of the buffer drained, if it is whole |
| ViciClient.ViciClient.HandlePacket | crates/vici/src/client.rs:107-145 | what a packet does while the client asks or listens |
| ViciClient.ViciClient.Start | crates/vici/src/client.rs:99-106 | poisoned from the first byte written, and refused when poisoned |
| ViciClient.ViciClient.NextEvent | crates/vici/src/client.rs:74-83 | the oldest event kept, or the wait for one |
| Eap.SuccessNeedsProof | crates/ikev2/src/eap.rs:115-128 | over every run with MSCHAPv2, a success carries a key that a verified authenticator response for the challenge then outstanding has set since the success before |
| Eap.RepliesFit | crates/ikev2/src/eap.rs:86-140 | every reply is a response with the request's identifier and its own length |
| Eap.RepliesAsAsked | crates/ikev2/src/eap.rs:86-288 | a packet gets a reply if and only if it asks for that one, byte by byte: the user name, the NT response and our challenge with their lengths, the MD5 of identifier, password and challenge, the password, the acknowledgement of a proven success, or a Nak with the method wanted |
| Eap.EapPeer.OnPacket | crates/ikev2/src/eap.rs:103-140 | the new state and the step, for every packet |
| Eap.EapPeer.OnMschapv2 | crates/ikev2/src/eap.rs:190-288 | the challenge answered, the proof checked and the key set |
| ResolvConf.RestoreUndoesEdit | crates/net/src/dns.rs:160-225 | restoring gives back the lines, whatever servers and domains, if and only if the new search line is no other line |
| ResolvConf.OneSearchIsRestored | crates/net/src/dns.rs:160-225 | and so for files with at most one search line |
| ResolvConf.OthersLinesStay | crates/net/src/dns.rs:209-225 | lines others put in meanwhile stay where they are, and the original lines come back around them |
| ResolvEdit.EditAdds | crates/net/src/dns.rs:160-205 | an edit puts just the missing servers on top, in the order given, and changes no other line but the first search line, or adds one on top |
| ResolvEdit.SearchNames | crates/net/src/dns.rs:162-187 | the new search line names the domains first and then what the old one named besides them, in its order |
| ResolvEdit.ServersPresent | crates/net/src/dns.rs:188-199 | after an edit every server is present |
| ResolvConf.EditFile | crates/net/src/dns.rs:160-205 | the lines edited in place, those added and the one replaced |
| Bytes.Reader.Take | crates/ikev2/src/message/bytes.rs:21-31 | the bytes taken and the cursor after them, or the cursor as it was |

## Left out

- Sockets, TLS, TUN devices, the select loops and wall-clock time: datagrams, chunks and events are inputs, and steps take the time as a number.
- The session's two-ended runs keep each sealed datagram as its content beside its key; `SessionWire.SealedIsWire` ties it to bytes. A datagram that neither end's key sealed does not open.
- SessionSafety.ExactlyWhatWasAsked: runs within one IKE SA (a switch to a rekeyed one ends them), with fewer than 2^32 requests and answers without payloads of type 0; the rekey decisions (algorithms, groups, nonces) are an input.
- SessionClass.IkeSession.OnDatagram: the future of `request` is a field with the waiting request, so its loop is the run of the session; a session also ends when a response of its own cannot be encoded, which here only sends nothing.
- SessionSafety.RepeatGetsSameAnswer: for a fragment, `NoClash` of the sender at that moment; mixed with fragments of an answer it can complete a message that does not parse, and is not answered then.
- SessionClass.IkeSession.HandleCreateChildSa: what to answer (proposals, groups, nonces, SPIs) is an input; the answers, the refusals and the state after each are modelled.
- SessionIvs.IvsNeverRepeat: the keys of a rekeyed SA are assumed new, which a fresh exchange makes them but for collisions.
- IKE_SA_INIT and IKE_AUTH (retries, signatures, certificates, NAT detection) and the rekeys this side begins.
- Esp.ChildSa.Encapsulate: byte counters are unbounded; lifetimes and when a rekey is due are not modelled.
- Messages.HeaderRoundTrip: no claim for headers of another major version, which are refused.
- Names and texts are bytes or characters: the lossy conversion of invalid UTF-8 is not modelled, and white space is that of ASCII.
- ViciClient.AnswersMatchRequests: the daemon answers each request once, in its kind, after it has come in; the read loops are the run, one packet or chunk at a time; a closed stream is not modelled.
- PppRuns.HandleMoves: identifiers wrap as in the code, but the count of Naks is unbounded; it wraps there after 2^32.
- Proposals.ParseIke: the spelling of algorithm names is not modelled; a proposal is a list of words already recognised.
- ResolvConf.EditFile: reading and writing the file; a file without lines is written back as one empty line, and carriage returns at line ends are lost.
- Eap.EapPeer.OnMschapv2: the reasons of failure messages.
- The traffic selector, configuration, identity, certificate and notification payload codecs: they repeat the round trips above.
- The portal login, SAML, HTTP, routes, the charon back end, settings and the command line.
