# Verified model of the mesh core

This project models the parts of `core/src` on which delivery, storage and key use rest, and proves
properties of them. Verify it with `dafny verify dfyconfig.toml`.

**The ratchet.** `Ratchet` is the session object with its bounded store of skipped keys. `Session` puts two of
them on a network that loses, duplicates and reorders, and proves that what is delivered opens to what was sent.
`Divergence` shows that the one excluded case, a late or repeated message of a chain already left, breaks a session
for good, as does any header that names a wrong ratchet key; `LateMessage` gives an example. `KeyUse` shows that no
message key is ever used twice, `Prekeys` and `Pqxdh` that the bootstrap ends in a pair of matching ratchets.

**The store.** `Engine` is the bounded store, `Urgency` what it keeps, `Durable` its image on disk through
crashes and restarts, `Bloom` its summary.

**The mesh.** `Relay` is one node, `RateLimiting`, `Accounts` and `Admission` what one peer can get past its rate
limiter, `Mesh` any number of nodes, `Drain` why gossip settles, `Flood` whom it reaches while contacts last,
`Contact`, `Schedule` and `Simulation` the pairwise contact windows of the simulator and what a schedule of them
delivers, `Totals` when its contacts are favourable, `Lifetimes` which lifetimes that takes.

**The formats.** `Envelopes`, `Bloom`, `ContactMessages`, `Prekeys`, `Pqxdh` and `Groups` hold the codecs.

How the model is built:

- Cryptography is symbolic (`SymbolicCrypto`): key derivation and sealing are free terms, Diffie-Hellman commutes,
  an identity is a free term over its preimage. Signatures, ML-KEM, the Bloom hash and the puzzle digest are
  function parameters; `Prekeys.Lawful` states the laws that are used of the first two.
- Randomness, clocks and the listing order of a database are parameters. The order in which a hash map is walked
  is left open: a specification gives a set, and a method proves that what it returns enumerates it.
- Objects whose methods update fields are classes. Each method is proved against a function of the old state, and
  the theorems are about those functions.
- A node's view of the network works on messages; `Mesh.HandleIsOnFrame` and `ContactMessages.ParsePrint` are the
  link to the bytes the engine really parses.

Where the code differs from its documentation, or from what one would expect of it, the code is modelled:

- `docs/CRYPTOGRAPHY.md` section 5 promises that out-of-order messages are handled. The code takes the ratchet step
  before it looks among the skipped keys (`core/src/crypto/ratchet.rs:130-135`), so a message of a chain already
  left behind opens if it is late, is refused if it is a repeat, and either way ruins the session for good, unless
  the chain given up for it overflows the store and the receipt fails: `Session.LeftBehindDelivery`,
  `Divergence.RepliesAreLost`, `LateMessage.LateMessageBreaksSession`, and the exact condition in
  `Session.DeliveryKeepsStepIff`.
- A failed receipt is not undone (`core/src/crypto/ratchet.rs:127-140`): `Ratchet.ReceiptLeavesIff` says exactly which
  receipts leave the receiver as it was.
- The comment on the contact message (`core/src/relay.rs:53-57`) says the puzzle is solved once by the originator and
  never again. A gossip push solves it anew (`core/src/relay.rs:257`); `Mesh.NoFrameFailsPuzzle` covers both.
- That a lifetime longer than the path is enough for delivery is false, because a node keeps the first copy it gets
  (`core/src/engine.rs:73-75`): `Lifetimes.ShortChainMayFail`. Among `n` nodes it holds exactly for lifetimes of at
  most two or at least `n`: `Lifetimes.ShortChainsIff`.
- That a peer's rate caps hold between two connects is false, because losing a peer drops its account and its next
  frame opens a new one (`core/src/relay.rs:224-226`, `core/src/relay.rs:272-280`): `Admission.LossRenewsAllowance`.
  They hold exactly if the peer is neither connected nor lost meanwhile, or no data frame can pass at all:
  `Admission.CapsHoldIff`. `Admission.PeerWindowCaps` counts the losses in.

## Model

| member | source | states |
|---|---|---|
| Session.SessionDelivers | core/src/crypto/ratchet.rs:108-200 | After any run of two freshly paired parties with loss, repeats and any reordering that never delivers from a chain already left, a first delivery that fits opens to exactly what was sent, a repeat is refused with the state unchanged, and neither side is more than one ratchet key behind the other |
| Session.FirstDelivery | core/src/crypto/ratchet.rs:127-200 | In every such state a first delivery opens if and only if the keys it makes the receiver store fit; then the parties stay in step; otherwise the error is the full store |
| Session.RepeatedDelivery | core/src/crypto/ratchet.rs:171-199 | A repeat on a chain not yet left is refused as consumed and changes nothing |
| Session.RunSynced | core/src/crypto/ratchet.rs:59-208 | The invariant relating both states, the key history and the log of deliveries holds after every legal run |
| Session.OtherHeaderRefused | core/src/crypto/ratchet.rs:127-140 | Whatever has happened in a session, a ciphertext either party sealed opens for nobody, in no state, under another header than its own |
| Divergence.RepliesAreLost | core/src/crypto/ratchet.rs:108-200 | After one receipt, opened or refused, that makes a receiver ratchet against a key that is neither the one it followed nor its peer's present one (a late message or a repeat of a chain already left, or a header nobody sealed), no reply it ever seals is opened by the peer, whatever both seal and are fed from then on, honest or not, unless the peer happens to draw that key's scalar |
| Session.ForeignReceipt | core/src/crypto/ratchet.rs:127-169 | Such a receipt makes the receiver go on from a root of its own exactly when the keys of the chain it abandons fit; otherwise it is left without a receiving chain |
| Session.DeliveryKeepsStepIff | core/src/crypto/ratchet.rs:127-200 | The delivery of an honest message, first or repeated, gives what it should (the plaintext, or the refusal as consumed) and keeps the parties in step exactly when its chain was not left and, if it is the first, its skipped keys fit |
| Session.LeftBehindDelivery | core/src/crypto/ratchet.rs:127-200 | What the delivery of a message of a chain already left returns: a first one opens and a repeat fails to open, unless the chain given up for it overflows the store |
| LateMessage.LateMessageBreaksSession | core/src/crypto/ratchet.rs:127-140 | A concrete loss-free exchange in which one late message opens, and one repeated message is refused, and after either every later reply is lost, whatever else the parties send and receive |
| KeyUse.KeysUsedOnce | core/src/crypto/mod.rs:26-56 | Whatever two paired parties send and whatever headers and ciphertexts they are fed, no message key seals twice, by one party or by both, and none is handed out twice for opening: what the fixed nonce relies on |
| KeyUse.ReceiveOnce | core/src/crypto/ratchet.rs:127-208 | One receipt, failed or not, keeps every stored key unique and not yet handed out |
| KeyUse.RunStoresBounded | core/src/crypto/ratchet.rs:20-208 | After any run at all a party holds at most 1000 skipped keys, and no receipt, whatever it claims, stores more than that many |
| Ratchet.StoresBounded | core/src/crypto/ratchet.rs:161-208 | Whatever numbers a header claims, one receipt stores at most 1000 keys, both skip loops and overwrites counted, and the store stays within 1000 |
| Ratchet.ReceiptLeavesIff | core/src/crypto/ratchet.rs:127-200 | Whatever header and ciphertext come, the receiver's state stays as it was exactly when the header names the key it follows and a number neither stored nor still to come (or there is no chain to find it on); every other receipt costs the root, the receiving chain or a stored key |
| Ratchet.OpensAsSealed | core/src/crypto/ratchet.rs:127-140 | For every state, header and ciphertext: it opens to a plaintext exactly if it was sealed, bound to that very header, under the key the header leads to, with content that starts with the plaintext and its length |
| Ratchet.SealsAsSaid | core/src/crypto/ratchet.rs:108-125 | A message is sealed exactly if there is a sending chain and it has at most 65532 bytes, under the next key of that chain and bound to a header naming the ratchet key, the previous chain's length and the number; the other results are spelled out |
| Ratchet.FirstGap | core/src/crypto/ratchet.rs:20-208 | A fresh receiver finds the key of a first message numbered up to 1000, and of none beyond |
| Ratchet.OverflowLeaves | core/src/crypto/ratchet.rs:161-208 | A receipt that overflows the store leaves exactly 1000 keys, all that were stored among them, and no receiving chain |
| Ratchet.SkipToEntry | core/src/crypto/ratchet.rs:171-200 | Which key a skip loop leaves under each number |
| Ratchet.SkipToFits | core/src/crypto/ratchet.rs:161-169 | A skip loop completes exactly when the new numbers fit the store |
| Ratchet.DoubleRatchet.Initiator | core/src/crypto/ratchet.rs:59-79 | The initiator starts with a sending chain from the shared secret and the peer's key |
| Ratchet.DoubleRatchet.Responder | core/src/crypto/ratchet.rs:80-98 | The responder starts with its own key pair and no chains |
| Ratchet.DoubleRatchet.Encrypt | core/src/crypto/ratchet.rs:108-125 | Performs the sealing transformer, spending the key even when padding fails |
| Ratchet.DoubleRatchet.Decrypt | core/src/crypto/ratchet.rs:127-140 | Performs the receiving transformer, also when opening fails, adds at most 1000 stored keys, and returns only what was sealed under the header received |
| Ratchet.DoubleRatchet.RatchetStep | core/src/crypto/ratchet.rs:142-159 | Performs the two root steps and resets the counters |
| Ratchet.DoubleRatchet.SkipChain | core/src/crypto/ratchet.rs:161-169 | The loop stores exactly the keys of the numbers skipped |
| Ratchet.DoubleRatchet.MessageKeyFor | core/src/crypto/ratchet.rs:171-200 | Takes a stored key, refuses a consumed number, or advances the chain, as the transformer says |
| Ratchet.DoubleRatchet.StoreSkipped | core/src/crypto/ratchet.rs:202-208 | Stores a key unless the bound is reached |
| Padding.PadUnpad | core/src/crypto/padding.rs:29-56 | Exactly content of up to 65532 bytes is padded, with zeros, to the least of the six sizes that holds it, and unpadding returns it |
| Padding.UnpadReads | core/src/crypto/padding.rs:47-56 | Unpadding accepts exactly what starts with a length and that much content, whatever follows |
| Padding.FirstBucketIsLeast | core/src/crypto/padding.rs:29-45 | The bucket used is the least that fits |
| Prekeys.RunKeepsLedger | core/src/crypto/prekey.rs:311-377 | Over any run of a pool the generated keys are those available, in order, and those consumed; if none was drawn twice none is consumed twice |
| Prekeys.PoolRoundTrip | core/src/crypto/prekey.rs:383-406 | A pool comes back with the same keys in the same order exactly when their number fits its field |
| Prekeys.PoolInverts | core/src/crypto/prekey.rs:394-406 | Any bytes that parse as a pool are what that pool prints |
| Prekeys.BundleRoundTrip | core/src/crypto/prekey.rs:163-223 | A printed bundle parses back, with anything after it |
| Prekeys.BundleInverts | core/src/crypto/prekey.rs:183-223 | Printing undoes parsing exactly on inputs without trailing bytes, which the parser ignores |
| Prekeys.BundlePrintable | core/src/crypto/prekey.rs:183-223 | A bundle that is accepted has a verifying key on the curve and fields that fit |
| Prekeys.BundleLayout | core/src/crypto/prekey.rs:163-181 | Which bytes of a bundle are what |
| Prekeys.PoolLayout | core/src/crypto/prekey.rs:383-391 | Which bytes of a persisted pool are what, each one-time key at its place |
| Prekeys.InitiatesIff | core/src/crypto/prekey.rs:240-272 | The classical agreement is entered exactly if the signature on the 32 bytes of the signed prekey verifies under the bundle's own key |
| Prekeys.PrekeyPool.Consume | core/src/crypto/prekey.rs:368-371 | Hands out and removes the first key with the public part asked for, and none exactly if there is none |
| Prekeys.PrekeyPool.TopUp | core/src/crypto/prekey.rs:350-352 | Appends a batch and keeps the books |
| Prekeys.PrekeyPool.ToBytes | core/src/crypto/prekey.rs:383-391 | The loop prints what the round trip is about |
| Pqxdh.BootstrapPairs | core/src/crypto/pqxdh.rs:284-393 | Through the packed message and a pool used in between: the responder answers exactly when the one-time key named is still available, and both sides derive one secret and start as a paired session exactly when the signed prekey was not rotated and the post-quantum key still reads the ciphertext alike, as it does if it was not rotated |
| Pqxdh.InitiatesIff | core/src/crypto/pqxdh.rs:101-356 | For every bundle: the initiator derives a secret exactly if both signatures, on the signed prekey and on the encapsulation key, verify under the bundle's own key |
| Pqxdh.AnswerSpends | core/src/ffi_prekey.rs:158-181 | An answer takes the first key with the public part named out of the pool and changes nothing else; a refusal changes nothing |
| Pqxdh.BootstrapDelivers | core/src/crypto/pqxdh.rs:344-393 | The session so started keeps the ratchet's promise: first deliveries that fit open, repeats are refused without a trace, neither side is more than one key behind |
| Pqxdh.ReplayRefused | core/src/ffi_prekey.rs:158-181 | The same first message again is refused, its one-time key being gone |
| Pqxdh.SameX3dh | core/src/crypto/prekey.rs:240-292 | The two key agreements coincide exactly when they use the same signed prekey |
| Pqxdh.UnpackPack | core/src/crypto/pqxdh.rs:284-342 | The packed first message reads back as its parts |
| Pqxdh.PackUnpack | core/src/crypto/pqxdh.rs:312-342 | Whatever is accepted as a first message is the one packing of its parts |
| Pqxdh.PackLayout | core/src/crypto/pqxdh.rs:284-298 | Which bytes of a first message are what |
| Pqxdh.HybridRoundTrip | core/src/crypto/pqxdh.rs:117-155 | A printed hybrid bundle parses back |
| Pqxdh.HybridInverts | core/src/crypto/pqxdh.rs:131-155 | An accepted hybrid bundle is well formed and is what it prints exactly if its classical part has no trailing bytes |
| Pqxdh.HybridPoolRoundTrip | core/src/crypto/pqxdh.rs:239-263 | A persisted hybrid pool comes back whole |
| Pqxdh.HybridPoolInverts | core/src/crypto/pqxdh.rs:250-263 | Bytes accepted as a hybrid pool are what it prints |
| Pqxdh.HybridPrekeyPool.AnswerMessage | core/src/ffi_prekey.rs:158-181 | The object performs the answering step the bootstrap theorem is about |
| Pqxdh.HybridPrekeyPool.RotatePqPrekey | core/src/crypto/pqxdh.rs:217-219 | Replaces the post-quantum key and nothing else |
| Pqxdh.HybridPrekeyPool.RotateSignedPrekey | core/src/crypto/pqxdh.rs:210-212 | Replaces the signed prekey and nothing else |
| Envelopes.ParsePrint | core/src/envelope.rs:124-223 | Parsing undoes printing exactly when the payload length fits its field; a longer one is always rejected |
| Envelopes.PrintParse | core/src/envelope.rs:147-223 | Every accepted byte string is the one encoding of what it parses to |
| Envelopes.PrefixRejected | core/src/envelope.rs:158-223 | No strict prefix of an accepted byte string is accepted |
| Envelopes.Layout | core/src/envelope.rs:110-156 | Which bytes of an envelope are what, and that its identity is taken of all of them but the hop count |
| Envelopes.IdIgnoresOnlyHops | core/src/envelope.rs:110-145 | Two envelopes share an identity exactly when they differ in the hop count at most |
| Bloom.FilterMembership | core/src/bloom.rs:48-68 | The identities that read as present are those all of whose bits were set by members, so every member does |
| Bloom.ContainsMeans | core/src/bloom.rs:57-68 | An identity reads as present exactly if, for each hash, the bit at `(h1 + i * h2) mod 2^64 mod bits` is set, counted from the least significant |
| Bloom.IndexIsProgression | core/src/bloom.rs:61-68 | What the wrapping products and sums of the positions come to |
| Bloom.PackedInsert | core/src/bloom.rs:48-55 | Setting one bit in place adds one index to the set the bytes stand for |
| Bloom.Filter.Insert | core/src/bloom.rs:48-55 | In place, the byte array goes on representing exactly the inserted indices |
| Bloom.Filter.Has | core/src/bloom.rs:57-59 | The membership loop decides the membership the theorem is about |
| Bloom.ParsePrint | core/src/bloom.rs:70-97 | A filter survives the wire |
| Bloom.PrintParse | core/src/bloom.rs:78-97 | Accepted bytes are what the filter prints |
| Bloom.PrefixRejected | core/src/bloom.rs:78-97 | Truncated filters are rejected |
| Bloom.Layout | core/src/bloom.rs:70-76 | Which bytes of a filter are what |
| Engine.AcceptEffect | core/src/engine.rs:72-114 | What every offer does: stays within capacity, stores as offered, removes at most the oldest of the least urgent and only for something strictly more urgent |
| Engine.AcceptAnswers | core/src/engine.rs:72-114 | The answer to every offer from the store and the clock alone: held, then `now >= expires_at`, then no hops, then full with nothing less urgent, else new; and only that changes the store |
| Engine.AcceptTakes | core/src/engine.rs:72-123 | An accepted offer is stored as it is and as the latest; a store with room loses nothing, a full one exactly an entry than which none is less urgent and none as urgent is older |
| Engine.WorstIsUnique | core/src/engine.rs:118-123 | The victim of an eviction does not depend on the order the map is walked in |
| Engine.SosSurvives | core/src/engine.rs:72-138 | In every state offers and purges lead to, the store is well formed and a stored SOS is still there unless a purge came at or after its expiry |
| Engine.SosHeldIff | core/src/engine.rs:72-138 | A stored SOS that is not offered again is still there if and only if no sweep came at or after its expiry |
| Engine.BloomRefinesExact | core/src/engine.rs:144-178 | What a Bloom summary makes a peer send is part of what is missing, and what it holds back are its false positives only |
| Engine.Store.Accept | core/src/engine.rs:72-114 | Performs the accept transformer, outcome and evicted identity included; the outcomes for held and for expired envelopes are spelled out |
| Engine.Store.WorstEntryId | core/src/engine.rs:118-123 | The scan finds an entry at least as bad as every other, if there is one |
| Engine.Store.PurgeExpired | core/src/engine.rs:127-138 | Keeps exactly the entries with `now < expires_at` and reports exactly the others |
| Engine.Store.SummaryBloom | core/src/engine.rs:153-159 | Builds the filter of exactly the held identities |
| Engine.Store.MissingFromBloom | core/src/engine.rs:172-178 | Lists each held envelope the filter lacks, once |
| Urgency.KeepsMostUrgent | core/src/engine.rs:72-123 | After any offers, repeats and expired ones included, at every level of urgency the store holds as many of the live identities offered as fit and nothing else |
| Urgency.NeverReaccepted | core/src/engine.rs:72-114 | An identity offered live before and not held now is refused again, without effect |
| Urgency.OrderIrrelevant | core/src/engine.rs:72-123 | The order of the offers changes no count at any level |
| Urgency.KeepsAllThatFit | core/src/engine.rs:72-123 | If all the offers at a level fit they are all kept, whatever else was offered |
| Durable.LifeMirrors | core/src/durable.rs:42-95 | Over a whole life with crashes at any disk write of an offer, a purge or a reload, resizes, key changes and reloads in any order, the disk is the sealed image of the memory whenever the store is open and idle; what a crash leaves fits the store that last ran and can be reloaded |
| Durable.AcceptCrash | core/src/durable.rs:75-84 | A crash between any two writes of an accept leaves each slot as before or as after, all that both share, and no more than the capacity |
| Durable.PurgeCrash | core/src/durable.rs:88-95 | The same for a purge |
| Durable.CrashLeavesPart | core/src/durable.rs:75-95 | A crash before the last write of an offer, or anywhere in a purge, leaves part of the disk as it was, slot for slot; one after the last write leaves the image of the memory after |
| Durable.ReloadCrash | core/src/durable.rs:46-68 | A crash between any two removals of a reload leaves each slot as before or as the finished reload would, all that both share, and exactly one record fewer for each removal made: never more than before, though more than a smaller capacity until the surplus is gone |
| Durable.OpenMirrors | core/src/durable.rs:42-71 | A reload, in any listing order, of a disk with foreign or unreadable records ends with disk and memory equal, by removals only |
| Durable.OpenKeepsMostUrgent | core/src/durable.rs:46-68 | A reload into a smaller store keeps the most urgent of what is live |
| Durable.ReopenRestores | core/src/durable.rs:42-71 | With enough room a restart brings back exactly the unexpired entries, each as it was |
| Durable.DurableStore.Open | core/src/durable.rs:42-71 | The loop performs the reload the theorems are about, with its disk writes in that order |
| Durable.DurableStore.Accept | core/src/durable.rs:75-84 | Performs the accept on memory and disk, with its disk writes in the order of the crash theorem, and keeps them equal |
| Durable.DurableStore.PurgeExpired | core/src/durable.rs:88-95 | Purges memory and disk alike, one removal for each expired entry, and counts what left |
| ContactMessages.ParsePrint | core/src/relay.rs:61-105 | Parsing undoes printing exactly when the payload fits its length field; what does not fit is rejected |
| ContactMessages.PrintParse | core/src/relay.rs:79-105 | Every accepted frame has one spelling |
| ContactMessages.PrefixRejected | core/src/relay.rs:79-105 | A truncated frame never parses |
| ContactMessages.Layout | core/src/relay.rs:61-77 | Which bytes of a frame are what |
| RateLimiting.WindowCaps | core/src/relay.rs:138-156 | For a fixed configuration and a clock that does not go back, every window stays within both caps |
| RateLimiting.StretchCaps | core/src/relay.rs:138-156 | Any stretch as long as a window, wherever it starts, sees at most twice the caps |
| RateLimiting.LimiterCounts | core/src/relay.rs:141-155 | The counters are the true tally of the current window |
| RateLimiting.AllowsIff | core/src/relay.rs:138-156 | Every answer, whichever way the clock went: one more envelope and its bytes fit the caps together with what was allowed since the window last changed |
| RateLimiting.AllowsInWindowIff | core/src/relay.rs:138-156 | With a clock that does not go back, together with what was allowed in the window |
| RateLimiting.SameWindowIff | core/src/relay.rs:141-146 | Two times share a window exactly if no multiple of the window's seconds lies between them |
| Admission.PeerWindowCaps | core/src/relay.rs:217-289 | Over any run of a node and from a fresh account, within every window a peer gets no more envelopes and bytes past the limiter than the caps, times one more than the number of times it was connected or lost meanwhile |
| Admission.PeerStretchCaps | core/src/relay.rs:217-289 | The same with twice the caps for any stretch as long as a window |
| Admission.LossRenewsAllowance | core/src/relay.rs:224-280 | That bound is reached: without any connect a peer gets any number of equal frames that fits one allowance, and their bytes, once more after each loss, all within one window |
| Admission.CapsHoldIff | core/src/relay.rs:138-280 | For any node, puzzle and limits: from a fresh account both caps hold in every window of every run in which the difficulty stays and the peer is connected or lost so many times, if and only if that number is zero or no data frame satisfies the puzzle and fits an unused allowance |
| Admission.CapsBroken | core/src/relay.rs:224-280 | Otherwise a run that breaks a cap consists of copies of one frame, at the size it has on the wire, and losses |
| Admission.SomePassesWithoutPuzzle | core/src/relay.rs:138-156 | With the puzzle off such a frame exists exactly if the caps allow one envelope and 30 bytes, the least a data frame takes |
| Admission.StepAccount | core/src/relay.rs:217-285 | A connect or a loss starts an account afresh, each data frame of the peer past the puzzle is one question on it, and nothing else touches it |
| Admission.OnlyAdmittedAct | core/src/relay.rs:268-280 | A data frame that is not admitted leaves the store as it is and is not relayed |
| Admission.AdmittedIsStored | core/src/relay.rs:268-285 | An envelope not held is stored exactly if its frame is admitted, it is live, and the store has room or something less urgent |
| Relay.RelayEngine.SetPuzzleDifficulty | core/src/relay.rs:203-205 | Changes the difficulty and nothing else |
| Relay.RelayEngine.SetRateLimits | core/src/relay.rs:207-213 | Changes the limits and nothing else; running counters are kept |
| Relay.RelayEngine.OnFrame | core/src/relay.rs:230-289 | On bytes: an unparsable frame changes nothing; otherwise state and outbound frames are those of the node function; and data newly stored with a hop to spare goes once to every other peer, anything else to nobody |
| Relay.RelayEngine.OnPeerConnected | core/src/relay.rs:217-220 | Starts the peer afresh and returns the printed summary |
| Relay.RelayEngine.OnPeerLost | core/src/relay.rs:224-226 | Forgets the peer and nothing else |
| Relay.RelayEngine.ComposeLocal | core/src/relay.rs:294-303 | Stores the envelope, and if the store took it and it has a hop to spare sends it once to every peer under a nonce that verifies; otherwise sends nothing |
| Relay.RelayEngine.RelayToPeers | core/src/relay.rs:307-344 | One copy, one hop lower, for each peer, or none when no hop is left |
| Relay.DataFloods | core/src/relay.rs:268-289 | From the stores before and after: a frame whose envelope was not held and now is, with a hop to spare, is passed on as exactly one copy, one hop lower and with its nonce, to each connected peer but the sender; any other frame as none |
| Relay.ComposeFloods | core/src/relay.rs:294-303 | The same for a node's own envelope and all its peers, under one nonce that verifies |
| Relay.SummaryAnswered | core/src/relay.rs:232-267 | A summary is answered to its sender alone: with the node's own if that is still owed, and with exactly one frame for each envelope held that its filter lacks and that has a hop to spare |
| Puzzle.ZeroBitsBound | core/src/puzzle.rs:50-69 | Leading zero bits mean exactly that the digest, as a big-endian number, is below the corresponding power of two |
| Puzzle.VerifiesBound | core/src/puzzle.rs:50-69 | A nonce verifies exactly if the digest has that many bits and, as a big-endian number, leaves them all zero |
| Puzzle.CountLeadingZeroBits | core/src/puzzle.rs:58-69 | The loop counts the leading zero bits |
| Puzzle.Solve | core/src/puzzle.rs:37-48 | The search returns the least nonce that verifies |
| Mesh.HopsAreSpent | core/src/relay.rs:245-344 | After any run with loss, duplication, eviction, purges and restarts, also after crashes in the middle of a write, every stored and every sent copy is a composed envelope whose own journey is a chain of deliveries of that envelope, each later than the one before, with exactly one hop of its lifetime spent on each and at least one left |
| Mesh.ReachIsBounded | core/src/engine.rs:186-195 | A stored copy of an envelope composed once with lifetime T came from its composer in at most T - 1 deliveries of it, in order, and has exactly the rest of its hops left |
| Mesh.NoFrameFailsPuzzle | core/src/relay.rs:257-271 | With one difficulty everywhere no honest frame in flight fails the puzzle check, and no node is asked to solve what has no solution |
| Mesh.RunOk | core/src/relay.rs:217-345 | The invariant behind both holds after every run |
| Mesh.HandleIsOnFrame | core/src/relay.rs:230-231 | The message-level step is what the engine does with the printed bytes |
| Mesh.ReloadSame | core/src/durable.rs:42-71 | A restart, from any part of a store's image, brings back no envelope that was not there and none with another hop count |
| Drain.GossipSettles | core/src/relay.rs:230-345 | From any state, also with frames no honest node sent, every schedule that only delivers or loses frames ends within an explicit number of steps |
| Drain.DeliverDrops | core/src/relay.rs:230-289 | Each delivery lowers the measure: summaries still owed and in flight first, then the weight of the data in flight |
| Flood.ReachesAllLinked | core/src/relay.rs:230-345 | Live flooding: composed in a quiet net of at most as many nodes as it has hops, with a free slot and budget for one frame of it on each account, an envelope is held, after any order of deliveries without loss that empties the net, by exactly the nodes that contacts link to its composer |
| Flood.FloodCompletes | core/src/relay.rs:230-345 | Such a run exists from every such net |
| Flood.Drained | core/src/relay.rs:230-345 | From any net with bounded stores everything in flight can be delivered until nothing is |
| Contact.ExactExchange | core/src/dtn_sim.rs:109-143 | With room and rate budget each side of a window ends with what it had and the other's live envelopes of lifetime at least two that its filter lacked, one hop lower, and nothing else |
| Contact.GainIsDifference | core/src/engine.rs:172-178 | Without false positives what is passed on is exactly what the other side lacks |
| Contact.FewFrames | core/src/dtn_sim.rs:118-138 | A window handles two summaries and at most one data frame for each envelope either side held |
| Contact.NothingElse | core/src/dtn_sim.rs:109-143 | Whatever the conditions, nothing comes from elsewhere and both nodes end without contacts |
| Schedule.DeliveredAlongChains | core/src/dtn_sim.rs:109-154 | With a lifetime of at least the number of nodes and favourable contacts, exactly the nodes linked to the origin by a time-respecting chain of contacts end up with the envelope |
| Schedule.OnlyAlongChains | core/src/dtn_sim.rs:109-154 | For every lifetime and whatever the conditions, only such nodes do |
| Schedule.ReachedIsChained | core/src/dtn_sim.rs:150-154 | Spreading contact by contact is the same as being linked by a time-respecting chain |
| Totals.DeliveredGivenTotals | core/src/dtn_sim.rs:109-154 | The same from what can be checked before the run: every node has room and rate budget for one frame of each envelope there is, no filter over the others contains the one in question, and that one does not expire meanwhile |
| Totals.AmpleRunFavourable | core/src/dtn_sim.rs:109-154 | Those totals make every contact of the run favourable |
| Lifetimes.DeliveredAsPredicted | core/src/dtn_sim.rs:109-154 | For every lifetime: after any favourable run a node holds the envelope exactly when the script of contacts alone predicts a copy with hops left there, and with that many left |
| Lifetimes.ShortChainsIff | core/src/engine.rs:73-75 | Among n nodes a lifetime longer than the chain suffices in every favourable run if and only if it is at most two or at least n |
| Lifetimes.ShortChainMayFail | core/src/engine.rs:73-75 | For every lifetime of at least three and below the number of nodes there is a favourable run in which a node two contacts from the composer is missed |
| Lifetimes.FavourableRunExists | core/src/dtn_sim.rs:56-154 | Every script of contacts has a favourable run from fresh nodes, for an envelope that does not expire meanwhile and whose frame fits the default rate budget |
| Simulation.Window | core/src/dtn_sim.rs:109-143 | The queue loop performs such an exchange, or trips its guard, which takes more than 998 envelopes in the two stores |
| Simulation.Simulation.RunSchedule | core/src/dtn_sim.rs:150-154 | Produces a run of the kind the delivery theorems are about |
| Simulation.Simulation.ComposeAt | core/src/dtn_sim.rs:96-101 | Composes any envelope at one node and changes no other |
| Simulation.Simulation.constructor | core/src/dtn_sim.rs:56-86 | Every node starts with room for a thousand envelopes, no contacts, no puzzle and the default limits |
| Groups.RoundTrip | core/src/groups.rs:403-454 | Every list comes back whole and in order, whatever follows its encoding |
| Groups.DecodedIsBounded | core/src/groups.rs:415-454 | What is decoded re-encodes to the bytes it was read from, and there are at most (length - 4) / 8 entries whatever count is claimed |
| Groups.EncodeKvPairs | core/src/groups.rs:403-413 | The loop writes that encoding |
| Groups.DecodeKvPairs | core/src/groups.rs:415-454 | The loop reads it, with the same errors |

## Left out

- Real cryptography (X25519, Ed25519, ML-KEM, HKDF, HMAC, AEAD, BLAKE3): free terms or parameters with stated laws; no secrecy is claimed, and scalar clamping and low-order points are not modelled.
- The ratchet header as bytes: the associated data of a message is the header value itself.
- Noise handshakes, MLS groups, identities beyond their keys, fingerprints, channels, transports and the foreign-function layer, except the responder's answer in `core/src/ffi_prekey.rs:158-181`.
- Floating-point sizing in `BloomFilter::new`: any parameters the parser would accept; no false-positive rate is claimed.
- Failing disk operations, redb transactions and the panic wipe: a put or remove is atomic, and a crash may come between any two.
- Puzzle.Solve: only where a solution exists; otherwise the source's search does not end. `Mesh.NoFrameFailsPuzzle` shows that in the mesh only composing can meet such an identity.
- 64-bit overflow in sequence numbers, rate counters and iteration counts; 32-bit message counters wrap as in a release build.
- Memory exhaustion, and stores or messages too large for a 64-bit address space.
- Session.SessionDelivers: the skipped keys of a delivered message must fit the store, which is the condition `Session.FirstDelivery` proves exact.
- Simulation.Window: what an abandoned window leaves behind is not described, since the source panics there; and stored envelopes must fit the length fields, since the source panics on a frame of its own that does not parse.
- Schedule.DeliveredAlongChains: room, budget, freshness and the absence of a false positive are conditions on each contact. `Totals` derives them where every node has room and budget for everything; with less, which contacts meet them is not worked out.
- Flood.ReachesAllLinked: contacts stay as they are and nothing else is under way; with other traffic, room and budget would have to cover that too.
- Mesh.NoFrameFailsPuzzle: one fixed difficulty on all nodes; changing it during a run is possible in the source and not covered.
- Admission.PeerWindowCaps: the rate limits stay as they are during the run; changing them is possible in the source and not covered.
- Not modelled: `delivery_ratio` and the accessors.
