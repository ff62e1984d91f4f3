# UNITED: verified model

UNITED is a chat system with a Rust coordination server and an Electron client. This project models the parts of it that
carry state, and proves what they keep over every run.

| module | what it models |
|---|---|
| `BlockCrypto`, `BlockContents`, `ClientStore` | the client's encrypted, content-addressed block store with its in-memory layer L0 |
| `Eviction` | the budgeted sweep by tier and access time, and the TTL pass |
| `StoreRuns` | every run of the store, refined to a store of plaintext blocks without files and cache |
| `ServerStore`, `Cascade` | the server's own block store, and resolution through memory, disk, peers, discovered peers and server, with other operations running during every wait |
| `RotationChain`, `Identity`, `Sessions` | key rotation and cancellation, the tables behind them, refresh tokens and login challenges |
| `Provisioning` | moving an identity to another device over a byte stream |
| `Gossip`, `Doubles` | the Lamport counter of the gossip layer, a JavaScript number, over many nodes |
| `Base32` | the bit buffer behind key fingerprints |
| `MessageLog`, `Chat`, `DirectMessages` | message numbering, history paging, edits and deletions, the offline queue |
| `Reconnect` | the WebSocket client's reconnection |
| `Voice` | voice channel membership |
| `Grouping`, `RollingWindow` | message grouping for display, and transfer speeds |

Objects and tables that the code updates in place are classes whose methods are proved against functions or relations on
values; what holds over whole runs is proved about those. Times are integers. Hashes, ciphers, signatures and key
derivation are function values with the laws they are relied on for: opening undoes sealing, what was sealed under another
key does not open, both sides of a key exchange agree. Hashes are taken not to collide on the blocks that occur in a run. Random choices, clocks, network replies and
the order in which requests settle are parameters.

Where the code does something else than its comments say, the model follows the code:

- A history request without a cursor asks for sequences below -1, so it finds nothing (`MessageLog.NoCursorNoHistory`).
- The TTL pass deletes the blocks it has just downgraded (`Eviction.TtlPassRemovesExpired`).
- The server's reply in the last layer of the cascade is not hashed by the client, the request is made by putting the text
  into a URL, and the server lower-cases it; so a text that is not itself a hash is answered with something that does not
  have the requested address (`Cascade.AddressRightIff`).
- The Lamport counter is a double, which a foreign hint near 2 to the 53 stops (`Gossip.ForeignHintEndsOrderIff`).
- Starting a second provisioning session replaces the key of one whose socket is still open
  (`Provisioning.ReplacedKeyIsRejected`).
- Deleting a user's refresh tokens on a rotation does not reach a refresh or login that is between its steps
  (`Sessions.ReauthUnlessInFlight`).
- Clearing the gossip statistics also resets the Lamport counter (`Gossip.ResetLosesOrder`).
- "Connected" is still shown while a connected client dials again (`Reconnect.ConnectedBeforeOpen`).
- Leaving all voice channels before joining keeps a user in one channel only while one join is in flight
  (`Voice.SecondJoinBreaksIt`).

## Model

| member | source | states |
|---|---|---|
| `BlockCrypto.ClientLayoutRoundTrip` | client/src/main/blocks/crypto.ts:91-168 | A block sealed with either cipher is opened again from its version byte alone; the bytes are 1 or 2, a nonce of 12 or 24 bytes, and what the cipher gives |
| `BlockCrypto.ServerLayoutRoundTrip` | server/src/blocks/crypto.rs:36-68 | What the server seals under the key derived from a content hash, it opens again with that hash; the first 12 bytes are the nonce |
| `BlockContents.UsageSplitsByTier` | client/src/main/blocks/store.ts:259-272 | For every store content, the four per-tier sums add up to the sum of all stored sizes |
| `BlockContents.UsedAfterDelete` | client/src/main/blocks/store.ts:221-238 | Deleting a block lowers the total usage by exactly its recorded size |
| `ClientStore.BlockStore.PutBlock` | client/src/main/blocks/store.ts:103-161 | Storing is refused exactly when the block is new and the store locked; otherwise a new block gets the row it came with and a file in the layout above, a known one keeps its bytes and gets the better of the two tiers and the time of the store, every other block stays, and L0 gains the block |
| `ClientStore.BlockStore.GetLocalBlock` | client/src/main/blocks/store.ts:167-207 | A block is found exactly when it is in memory, or stored while unlocked; what is returned hashes to the address asked for; its access time becomes the time of the read, and nothing else of any row changes |
| `ClientStore.BlockStore.ReadFile` | client/src/main/blocks/store.ts:178-192 | Reading and decrypting the file of a row gives the block stored there, for every row |
| `ClientStore.BlockStore.DeleteBlock` | client/src/main/blocks/store.ts:221-238 | File, row and memory entry go together, and nothing else does |
| `ClientStore.BlockStore.TouchAccess` | client/src/main/blocks/store.ts:243-246 | Sets the access time of one stored block to the given time, and changes nothing else |
| `ClientStore.BlockStore.MaybeUpgradeTier` | client/src/main/blocks/store.ts:251-254 | The block's tier becomes the smaller of the two numbers, and nothing else changes |
| `ClientStore.BlockStore.GetStorageUsage` | client/src/main/blocks/store.ts:259-272 | Reports the true usage of every tier, and a total that is both their sum and the sum of all stored sizes |
| `ClientStore.BlockStore.EvictL0` | client/src/main/blocks/store.ts:168-176 | Whatever part of L0 disappears, stored contents stay |
| `StoreRuns.Apply` | client/src/main/blocks/store.ts:103-254 | Each operation of the encrypted, cached store is one step of a store of plaintext blocks without files and cache, whatever L0 holds |
| `StoreRuns.RunAll` | client/src/main/blocks/store.ts:103-254 | Cache transparency: the answers of any sequence of operations, with arbitrary L0 evictions in between, are those of a run of the plain store |
| `StoreRuns.PutIsRead` | client/src/main/blocks/store.ts:103-238 | For any lawful primitives and any block: on an empty store a read finds nothing, after a put the block, and after its deletion nothing again |
| `StoreRuns.P1SurvivesStep` | client/src/main/blocks/tiers.ts:60-83 | No step but an explicit delete removes, demotes or alters a never-evict block |
| `StoreRuns.P1Retained` | client/src/main/blocks/tiers.ts:60-83 | The same over any stretch of any run |
| `StoreRuns.StoredP1IsReadBack` | client/src/main/blocks/store.ts:103-207 | A block stored as never-evict is returned byte for byte by every later read of the unlocked store until it is deleted, through puts, upgrades, sweeps, TTL passes and L0 evictions |
| `StoreRuns.SparedIsKept` | client/src/main/blocks/store.ts:103-254 | Over any stretch of any run, a block keeps its bytes unless it is deleted, swept while the store is over the limit and the block evictable, or expired at a TTL pass |
| `StoreRuns.ReadsFollowTheRun` | client/src/main/blocks/store.ts:167-207 | A read of the unlocked store returns the bytes a block had at any earlier moment since which it was spared, and finds nothing at an address that was free then and has not been put since |
| `StoreRuns.UseIsRecorded` | client/src/main/blocks/store.ts:103-247 | In every step, storing, reading or touching a block sets its access time to that of the operation; no other operation changes it, creation time, size and metadata never change, and a new block has the row it was put with |
| `StoreRuns.TierIsBestSoFar` | client/src/main/blocks/store.ts:251-254 | In every step, a block's tier is the smaller of the one it had and the one asked for by a put or an upgrade of it |
| `StoreRuns.AccessTimeIsLastUse` | client/src/main/blocks/store.ts:243-246 | In every run, the access time of a stored block is the time of the last operation that stored, read or touched it |
| `StoreRuns.SweepTakesLeastRecentlyUsed` | client/src/main/blocks/tiers.ts:73-82 | In every run, when a sweep takes one block and leaves another of the same tier, the last use of the one it took came no later than that of the other |
| `Eviction.RunEvictionSweep` | client/src/main/blocks/tiers.ts:37-88 | The loop over tiers and blocks meets the declarative description of a sweep, and outright: nothing goes while usage is within the budget, P1 never goes, worse tiers go before better and older accesses before newer, some victim was still needed when the rest had gone, and usage ends within the budget or with P1 usage only; L0 loses exactly the evicted blocks |
| `Eviction.SweepPromise` | client/src/main/blocks/tiers.ts:54-82 | Every result that the description of a sweep allows keeps these promises, in terms of rows and budget alone |
| `Eviction.EvictTiers` | client/src/main/blocks/tiers.ts:63-83 | Going through tiers 4, 3, 2 keeps the order and stops within the limit or with P1 blocks only |
| `Eviction.EvictTier` | client/src/main/blocks/tiers.ts:73-82 | Within a tier, the oldest accesses go first and toFree stays the exact excess |
| `Eviction.EvictOne` | client/src/main/blocks/tiers.ts:78-82 | Deleting a least recently used block of the lowest-priority tier left keeps a sweep in order and frees its size |
| `Eviction.QueryLru` | client/src/main/blocks/tiers.ts:74-76 | The listing of a tier by access time holds each of its blocks once, in order, ties anyhow |
| `Eviction.SweepIdleIff` | client/src/main/blocks/tiers.ts:57-58 | A sweep removes nothing if and only if usage is within the budget, or is that of the P1 blocks alone |
| `Eviction.SecondSweepIdle` | client/src/main/blocks/tiers.ts:37-88 | A second sweep with the same budget changes nothing |
| `Eviction.SweepBound` | client/src/main/blocks/tiers.ts:54-61 | After a sweep the usage is at most the budget, or the usage of the P1 blocks where those alone exceed it |
| `Eviction.NoExtraVictims` | client/src/main/blocks/tiers.ts:63-83 | Unless access times of evictable blocks of a tier tie, no sweep evicts strictly more than another allowed one |
| `Eviction.SweepDetermined` | client/src/main/blocks/tiers.ts:63-83 | Unless two evictable blocks of a tier share an access time, the description of a sweep admits one result only |
| `Eviction.CheckTtlExpiry` | client/src/main/blocks/tiers.ts:97-125 | A TTL pass removes exactly the tier-3 and tier-4 blocks created more than the given days ago, and changes no other |
| `Eviction.TtlPassRemovesExpired` | client/src/main/blocks/tiers.ts:101-121 | Downgrading expired tier-3 blocks and then deleting expired tier-4 blocks deletes what was just downgraded: the composition removes both sets |
| `ServerStore.ServerBlockStore.PutBlock` | server/src/blocks/store.rs:27-88 | Accepted exactly when the data hashes to the address; a new block then gets the nonce and ciphertext as its file and a row with its sizes, channel and expiry, an existing one is left alone; every row keeps a file that opens to data with its address |
| `ServerStore.ServerBlockStore.GetBlock` | server/src/blocks/store.rs:93-118 | Never fails on a stored block, and returns the bytes that were put |
| `ServerStore.ServerBlockStore.DeleteBlock` | server/src/blocks/store.rs:137-151 | Removes one block and keeps the invariant of all others |
| `ServerStore.ServerBlockStore.DeleteExpiredBlocks` | server/src/blocks/store.rs:156-190 | Keeps exactly the rows that expire now or later, removes the files of the others, counts them, and keeps the invariant of the rest |
| `ServerStore.ServerGains` | server/src/blocks/store.rs:51-78 | A file sealed for a block and a row of its sizes extend a sound store soundly |
| `ServerStore.ExpiryKeepsTheRest` | server/src/blocks/store.rs:176-189 | Removing files first and rows later, by the same expiry test, leaves every surviving row its file |
| `ServerStore.ServerBlockStore.GetRoute` | server/src/blocks/routes.rs:129-168 | The reply is the block of the lower-cased address, not found, or bad request exactly for a text that is not 64 hex digits in either case; what is sent hashes to the lower-cased text |
| `Cascade.FetchFromHotPeers` | client/src/main/blocks/protocol.ts:228-283 | Whatever untrusted peers send and in whatever order they settle, there is an answer exactly when some peer sends a non-empty block with the hash, and it is the first such reply |
| `Cascade.UniquePeers` | client/src/main/blocks/protocol.ts:233-244 | Each connected peer is asked once, however many connections it has |
| `Cascade.PeersAnswerExactly` | client/src/main/blocks/protocol.ts:156-211 | In terms of the replies: nothing if and only if every reply is empty or has another hash; otherwise the first reply that is not and does not |
| `Cascade.LayersAreExact` | client/src/main/blocks/cascade.ts:49-134 | A block that is not stored comes from L2 if and only if a connected peer sends it, else from L3 if and only if the node has discovered peers and one of the widened circle sends it, else from L4 if the server has it |
| `Cascade.ResolveBlock` | client/src/main/blocks/cascade.ts:49-134 | With any run of the store during each wait: what is stored is answered from L0 or L1; anything else from L2 exactly when a connected peer sends a block with the hash, else from L3 exactly when a peer of the widened circle does, else from the server; the answer to a text of 64 hex digits hashes to the lower-cased address, and is held; and the store has gone through the read, what else happened, and the put of the answer, at tier 3 from peers and 4 from the server |
| `Cascade.TryNetwork` | client/src/main/blocks/cascade.ts:67-130 | After L1, peers, discovered peers and server are tried in this order, and the first to have the block answers; what becomes of the store is that run |
| `Cascade.ResolveBlockWithProgress` | client/src/main/blocks/cascade.ts:151-232 | The same answer from the same layer, which is pinned by what each layer has, with progress reports that are exactly the prefix of L0 to L4 down to it |
| `Cascade.ResolveTwice` | client/src/main/blocks/cascade.ts:49-134 | Both answers are those of the first layer that has the block at the time, and the first is held when the run in between begins; for the text of a hash, after any run that spares the block and ends unlocked, in particular one without its delete, sweeps, TTL passes and locking, the second one comes from L0 or L1 with the same bytes |
| `Cascade.TryServer` | client/src/main/blocks/cascade.ts:100-130 | The body is stored unhashed; for a text of 64 hex digits its address is right because of the server's invariant, for any other text it can be anything |
| `Cascade.FromPeerAndFromServer` | client/src/main/blocks/cascade.ts:49-134 | For any lawful primitives and any block: with a lying and an honest peer it is resolved from L2, without peers from the server, and asked again from L0 or L1 |
| `StoreRuns.OnlyThreeWaysOut` | client/src/main/blocks/tiers.ts:60-121 | A stored block disappears only by a delete, by a sweep over the limit when it is evictable, or by a TTL pass when it is expired |
| `Cascade.AddressRightIff` | client/src/main/blocks/cascade.ts:104-121 | The block returned has the requested address if and only if the request was the text of a hash, 64 lower-case hex digits; no layer before the server ever has any other text, so every such request goes to the server again |
| `Cascade.UpperCaseRequestIsMislabelled` | client/src/main/blocks/cascade.ts:104-122 | A concrete upper-case request that returns a block of a different address |
| `Cascade.LowerCaseIsNotEnough` | client/src/main/blocks/cascade.ts:104-122 | A concrete lower-case request, the text of a stored hash and a question mark, that returns a block of a different address |
| `RotationChain.PayloadIsUnambiguous` | server/src/identity/rotation.rs:71-80 | The bytes signed for a rotation determine both keys and the reason, those for a cancellation the fingerprint, and neither are ever the other |
| `RotationChain.LatestPendingIsLast` | server/src/identity/rotation.rs:270-277 | The query for the latest pending rotation finds the last link of the chain, or nothing if that link's window has closed |
| `RotationChain.RotateStatusIs` | server/src/identity/rotation.rs:117-201 | A rotation is accepted if and only if request and keys are well-formed, both keys verify their signatures over the payload, the old key is the user's, and no rotation is pending; it is answered 401 if and only if a well-formed signature does not verify |
| `RotationChain.CancelStatusIs` | server/src/identity/rotation.rs:269-291 | A cancellation takes back the latest of the pending rotations; it is accepted if and only if the key before that rotation verifies the signature over the identity's text |
| `RotationChain.RotateKeepsConsistent` | server/src/identity/rotation.rs:171-234 | A rotation, accepted or refused, keeps every user's chain linked, spaced and signed |
| `RotationChain.CancelKeepsConsistent` | server/src/identity/rotation.rs:269-318 | So does a cancellation |
| `RotationChain.RegisterKeepsConsistent` | server/src/identity/registration.rs:111-150 | So does a registration: fingerprints stay unique and each has one genesis record |
| `RotationChain.RotateExtendsChain` | server/src/identity/rotation.rs:203-227 | An accepted rotation adds exactly one link, from the key the chain led to |
| `RotationChain.CancelUndoesTheLastLink` | server/src/identity/rotation.rs:269-312 | The cancelled row is the chain's last link, and the key reverted to is where the chain without it leads |
| `RotationChain.EveryRunIsConsistent` | server/src/identity/rotation.rs:112-332 | After any registrations, rotations and cancellations, at any times and in any order, each user's current key is the end of an unbroken chain from its genesis key |
| `RotationChain.AtMostOnePending` | server/src/identity/rotation.rs:187-201 | At no moment do two live rotations of an identity have open windows |
| `RotationChain.RotateThenCancel` | server/src/identity/rotation.rs:251-332 | Rotating and cancelling inside 72 hours restores every user and the identity's chain |
| `RotationChain.ListingProvesTheKey` | server/src/identity/rotation.rs:337-392 | From any listing sorted by time, ties included, the rows that are not cancelled lead from the genesis key, link by link, to the current key, and both keys of every rotation verify its signatures |
| `Identity.IdentityTables.Register` | server/src/identity/registration.rs:42-207 | The checks in order, each with its own status, then the three inserts; the invariant holds either way |
| `Identity.IdentityTables.RotateKey` | server/src/identity/rotation.rs:112-245 | Every check in order with its status; accepted only with both signatures verified, it writes the record with its 72 hours and the key, and deletes exactly the user's refresh tokens; refused, it writes nothing |
| `Identity.IdentityTables.CancelRotation` | server/src/identity/rotation.rs:251-332 | Accepted only with a signature verified under the key before a pending rotation, which becomes the user's key again; deletes exactly the user's refresh tokens; refused, it writes nothing |
| `Identity.IdentityTables.StoreRefreshToken` | server/src/auth/jwt.rs:106-122 | Stores with a week to live, unless the hash is there already |
| `Identity.IdentityTables.ConsumeRefreshToken` | server/src/auth/jwt.rs:126-152 | Succeeds exactly for a stored, unexpired token, and then that token is gone |
| `Identity.HandleAll` | server/src/identity/rotation.rs:112-332 | Whatever requests come one after another, the tables are those of a run of the accepted ones, so all that holds of every run holds of them |
| `Sessions.TokensComeAndGo` | server/src/auth/jwt.rs:106-152 | A token enters the table by a registration or the last step of a login or refresh, with a week to live, and leaves it if and only if it is redeemed before its expiry or its user's tokens are deleted |
| `Sessions.FlightsComeAndGo` | server/src/auth/challenge.rs:181-246 | A request is between its steps from its login or redemption, for that user, until it stores its token or fails |
| `Sessions.ChallengesComeAndGo` | server/src/auth/challenge.rs:47-84 | A challenge is open for a minute from its issue, until a login answers it or an attempt spoils it |
| `Sessions.LoginAnswersChallenge` | server/src/auth/challenge.rs:75-84 | In every run from the start, a login answers a challenge that was issued at most 60 seconds before |
| `Sessions.SessionLives` | server/src/auth/challenge.rs:47-246 | Issue, login, store, redeem and renew are possible one after the other if and only if the login comes within a minute and the redemption within a week |
| `Sessions.RedeemedOnce` | server/src/auth/challenge.rs:181-246 | In every interleaving of consume, issue and store steps of any number of requests, each refresh token is redeemed at most once, from the start (`Sessions.StartIsSound`) or any sound state |
| `Sessions.RevokedForever` | server/src/identity/rotation.rs:229-234 | A token stored when a rotation or cancellation deletes the user's tokens is never redeemed afterwards |
| `Sessions.ChallengeUsedOnce` | server/src/auth/challenge.rs:75-84 | A challenge admits at most one login, and none after a failed use |
| `Sessions.ReauthUnlessInFlight` | server/src/identity/rotation.rs:229-230 | After the deletion, at whatever time, a user can go on without logging in if and only if one of the user's own requests was between its steps: the promise that all sessions must log in again has exactly this gap |
| `Sessions.OutUntilLogin` | server/src/identity/rotation.rs:229-234 | With none in flight, no token of the user is redeemed before a new login |
| `Sessions.FlightSurvives` | server/src/auth/challenge.rs:188-240 | With one in flight, a continuation from any time on in which the user keeps a session |
| `Provisioning.GcmRoundTrip` | client/src/main/ipc/provisioning.ts:114-134 | The layout of nonce, tag and ciphertext is read back |
| `Provisioning.SenderSession.OnData` | client/src/main/ipc/provisioning.ts:186-246 | After any chunk, nothing is written before 32 bytes are there; then, under HKDF of the X25519 secret of the private key held at that moment and those 32 bytes, exactly one frame: the length in four bytes, nonce, tag and ciphertext; and the next 32 bytes are judged by the HMAC of the payload under that key |
| `Provisioning.SenderWrites` | client/src/main/ipc/provisioning.ts:197-243 | The same of any stream, in terms of the primitives alone |
| `Provisioning.SenderSession.ReplaceKey` | client/src/main/ipc/provisioning.ts:48-58 | A cancellation, or another start that replaces the module's key, matters only before the receiver's key is complete |
| `Provisioning.ReceiverSession.OnData` | client/src/main/ipc/provisioning.ts:352-413 | After any chunk, nothing is decided before the length and as many bytes are there; then the payload is what opens under HKDF of the X25519 secret and parses, answered by its HMAC under that key, or the session gives up |
| `Provisioning.ReceiverDecides` | client/src/main/ipc/provisioning.ts:352-413 | The same of any stream, in terms of the primitives alone |
| `Provisioning.FeedReceiver` | client/src/main/ipc/provisioning.ts:352-413 | Cut into chunks anywhere, a stream is decided and answered as if it had come in one piece |
| `Provisioning.OutcomeIsFinal` | client/src/main/ipc/provisioning.ts:363-365 | Later bytes never change a decision |
| `Provisioning.TransferIsSafe` | client/src/main/ipc/provisioning.ts:136-146 | In every interleaving of both streams between honest endpoints and of starts and cancellations at the sender, at every moment: the receiver has nothing, or exactly the payload, or has given up because the sender answered under another key; the sender has nothing or accepted, after the receiver, and sent one frame at most |
| `Provisioning.TransferCompletes` | client/src/main/ipc/provisioning.ts:136-146 | A run with nothing left to deliver has succeeded on both sides if and only if the key behind the scanned code was still the module's when the receiver's key was complete |
| `Provisioning.ReplacedKeyIsRejected` | client/src/main/ipc/provisioning.ts:158-170 | Another start while the first receiver's key is on its way is a run of the system, and the first receiver rejects the answer exactly when the session keys differ |
| `Provisioning.TransferTerminates` | client/src/main/ipc/provisioning.ts:136-146 | Apart from changes of the sender's key, no schedule is longer than the bytes there are to deliver |
| `Doubles.RoundIsDouble` | client/src/main/p2p/gossipsub.ts:215-217 | Rounding a hint to a double gives a double, and leaves doubles and everything up to 2 to the 53 alone |
| `Doubles.RoundIsNearest` | client/src/main/p2p/gossipsub.ts:215-217 | No double is nearer to a number than the one it is rounded to |
| `Doubles.IncrementIs` | client/src/main/p2p/gossipsub.ts:123 | Adding one to a double counter adds one below 2 to the 53; from there on it adds nothing, or two once |
| `Doubles.TwoIncrements` | client/src/main/p2p/gossipsub.ts:123 | Two increments both count if and only if the counter is at least two below 2 to the 53 |
| `Gossip.GossipNode.PublishMessage` | client/src/main/p2p/gossipsub.ts:114-164 | The counter, a double, moves even when the envelope is too large to send; a sent one carries the new counter as its hint, under a signature that covers it |
| `Gossip.GossipNode.HandleMessage` | client/src/main/p2p/gossipsub.ts:176-236 | Only a message that decodes, with a 32-byte key, a 64-byte signature and a signature that verifies, moves the counter, by a double increment of the larger of counter and rounded hint, and is counted and forwarded; any other changes nothing |
| `Gossip.CounterClimbs` | client/src/main/p2p/gossipsub.ts:122-126 | Between resets a counter never falls, and rises with every send and accepted receive while it is below 2 to the 53 |
| `Gossip.HappensBefore` | client/src/main/p2p/gossipsub.ts:122-217 | An event comes before its node's later ones up to a reset, a sending before its arrivals, and the relation is transitive |
| `Gossip.RunGoesOn` | client/src/main/p2p/gossipsub.ts:176-217 | Any event may come next in a run, a message's arrival if and only if the message was sent before |
| `Gossip.HintsFollowCausality` | client/src/main/p2p/gossipsub.ts:215-217 | In every run of any number of nodes, with loss, duplication, reordering and arbitrary foreign hints, a message whose sending happens before another's never carries the larger hint, and carries the smaller one if the second sender's counter was below 2 to the 53 |
| `Gossip.ModestHintsFollowCausality` | client/src/main/p2p/gossipsub.ts:215-217 | So if every foreign hint leaves the length of the run up to 2 to the 53, happening before always means the smaller hint |
| `Gossip.OrderEndsAtTheLimit` | client/src/main/p2p/gossipsub.ts:122-126 | After any run, a node's next two messages carry different hints if and only if its counter is at least two below 2 to the 53 |
| `Gossip.ForeignHintEndsOrderIff` | client/src/main/p2p/gossipsub.ts:215-217 | One verified foreign message ends the order of a node's own next messages if and only if its hint comes that close |
| `Gossip.ResetLosesOrder` | client/src/main/p2p/gossipsub.ts:242-245 | After any run, the first message a node sends after a reset carries a hint no larger than any the node has sent before |
| `Gossip.Replay` | client/src/main/p2p/gossipsub.ts:114-237 | A node object fed its events holds the counter the run model gives it |
| `Base32.Base32Encode` | client/src/main/ipc/crypto.ts:88-106 | With a 32-bit accumulator that overflows, the loop outputs the encoding of section 6 of RFC 4648 without padding, for every input |
| `Base32.PushByte` | client/src/main/ipc/crypto.ts:95 | The bits that overflow are never ones still to be written |
| `Base32.TakeFive` | client/src/main/ipc/crypto.ts:98 | The letter taken is that of the five oldest pending bits |
| `Base32.FillUp` | client/src/main/ipc/crypto.ts:102-104 | The last letter is that of the zero-filled rest |
| `Base32.DecodeEncode` | client/src/main/ipc/crypto.ts:88-106 | The encoding has ceil(8n/5) letters and a decoder gives the bytes back |
| `Base32.LettersFollowRfc` | client/src/main/ipc/crypto.ts:88-106 | Every letter of the encoding is that of the RFC's alphabet for its five bits of the input, zeros after the end |
| `Base32.EncodingInjective` | client/src/main/ipc/crypto.ts:88-106 | Different byte strings have different encodings |
| `Base32.ComputeFingerprint` | client/src/main/ipc/crypto.ts:79-86 | The first 20 letters of the encoding in four groups of five, in order, after the prefix |
| `Base32.SameFingerprintIff` | client/src/main/ipc/crypto.ts:83-85 | Two keys are shown the same fingerprint if and only if their digests agree on the first 100 of 160 bits |
| `MessageLog.LogIsOneToN` | server/src/chat/messages.rs:134-141 | A numbered table's rows carry exactly 1 to n per channel, in insertion order |
| `MessageLog.InsertKeepsNumbered` | server/src/p2p/messages.rs:164-170 | Taking the maximum and one keeps the numbering |
| `MessageLog.UpdateKeepsNumbered` | server/src/chat/messages.rs:444-448 | Edits and soft deletions keep it |
| `MessageLog.CascadeKeepsNumbered` | server/src/chat/messages.rs:134-141 | So does the cascade that removes one channel's rows |
| `MessageLog.QueryIsDescending` | server/src/chat/messages.rs:236-246 | A page query yields exactly the live rows below the cursor, in strictly descending order |
| `MessageLog.PageIsTop` | server/src/chat/messages.rs:283-285 | A page is the newest of them, everything left out is older, and has_more holds if and only if something was left out |
| `MessageLog.CursorIsHonoured` | server/src/chat/messages.rs:229-251 | The query does what a cursor means if and only if the cursor fits an i64 or the channel has no live message; leaving it out means the largest u64 |
| `MessageLog.NoCursorNoHistory` | server/src/chat/messages.rs:229-251 | So without a cursor the page is empty and says there is no more, whatever the channel holds |
| `MessageLog.WalkIsWhole` | server/src/chat/messages.rs:229-285 | For every cursor within an i64 and every limit but zero, paging by the last sequence ends and yields every live message below the cursor once, newest first |
| `MessageLog.ZeroLimitStalls` | server/src/chat/messages.rs:230-285 | With limit zero the page is empty and has_more still tells whether there is anything |
| `MessageLog.WalkEnds` | server/src/chat/messages.rs:243-285 | Whatever is written between the pages, a walk has ended at the latest after one page for each number below its cursor |
| `MessageLog.VisitedOnce` | server/src/dm/messages.rs:289-332 | Whatever is written between the pages, the walk yields strictly descending sequences |
| `MessageLog.VisitedAll` | server/src/chat/messages.rs:243-285 | A message there at the first page and not deleted by the last is seen, whatever happens to other channels, their dropping included |
| `MessageLog.WritersDoNotDisturb` | server/src/chat/messages.rs:243-285 | Messages sent and edited between the pages, and anything done to other channels, do not change which ones the walk yields |
| `Chat.TopicNamesChannel` | server/src/p2p/messages.rs:135-143 | A topic names a channel if and only if it is some prefix, a slash and that id, non-empty and free of slashes |
| `Chat.ChatTables.CreateMessage` | server/src/chat/messages.rs:87-171 | The error cases in order; otherwise one row with the channel's next number, deleted rows counted |
| `Chat.ChatTables.HandleGossipMessage` | server/src/p2p/messages.rs:157-211 | Gossip shares the sequence with REST; an unknown channel writes nothing |
| `Chat.ChatTables.EditMessage` | server/src/chat/messages.rs:323-384 | Only a live message of the sender's in that channel gets the new content and the mark, and no other row changes; every refusal writes nothing and has its own reason |
| `Chat.ChatTables.DeleteMessage` | server/src/chat/messages.rs:404-453 | Only a live message in that channel, of the sender's or for a moderator, is marked deleted, and no other row changes; every refusal writes nothing and has its own reason |
| `Chat.ChatTables.DeleteChannel` | server/src/channels/crud.rs:379-387 | An existing channel goes with its rows, and the other channels' rows stay numbered |
| `Chat.HandleAll` | server/src/chat/messages.rs:87-465 | Whatever calls come one after another, the rows are those of a run of the accepted ones, so all that holds of every run holds of them |
| `Chat.EveryRunIsOneToN` | server/src/chat/messages.rs:134-170 | After any mix of sends, gossip receipts, edits, deletions and dropped channels, every channel's rows are numbered 1 to n |
| `Chat.RunEvolves` | server/src/chat/messages.rs:87-465 | Between two moments of any run, a channel that is not dropped has only been appended to, edited and soft-deleted |
| `Chat.WalkThroughARun` | server/src/chat/messages.rs:219-319 | A walk whose pages are taken at any moments of any such run yields strictly descending messages, among them every one that was there at the first page and lives at the last |
| `DirectMessages.DmTables.SendMessage` | server/src/dm/messages.rs:75-228 | Unknown conversation and stranger are refused; otherwise the conversation's next number, and an entry for the other of the two participants unless that one counts as online |
| `MessageLog.PageIsNewest` | server/src/dm/messages.rs:261-332 | A page below a cursor within an i64 is the newest live rows below it, in strictly descending order, at most the limit asked for, 50 by default, and at most 100, with has_more exactly when something was left out; any other page is empty |
| `DirectMessages.DmTables.GetMessages` | server/src/dm/messages.rs:252-340 | Strangers get the right refusal; participants the newest messages below the cursor, at most the limit and at most 100, or nothing at all without a cursor |
| `DirectMessages.DmTables.GetOfflineMessages` | server/src/dm/offline.rs:40-111 | Returns each pending entry of the user once, never a later message before an earlier one, and marks exactly the user's entries delivered |
| `DirectMessages.DmTables.AckOfflineMessages` | server/src/dm/offline.rs:115-150 | Marks exactly the user's own entries for the listed messages |
| `DirectMessages.DmTables.Cleanup` | server/src/dm/offline.rs:155-184 | Removes exactly the entries older than 30 days |
| `DirectMessages.HandleAll` | server/src/dm/offline.rs:40-184 | Whatever calls come one after another, background jobs in any order, tables and queue are those of a run of such events |
| `DirectMessages.InOrder` | server/src/dm/offline.rs:68-96 | Lists every entry once in order of time |
| `DirectMessages.EveryRunIsAccounted` | server/src/dm/offline.rs:47-166 | In every run of sends, fetches, acknowledgements and purges, each queued entry is returned by at most one fetch, and is returned, acknowledged first, purged, or still pending: exactly one of the four |
| `DirectMessages.DeliveredForGood` | server/src/dm/offline.rs:99-142 | A delivered entry never becomes pending again |
| `DirectMessages.PendingIsFetchedNext` | server/src/dm/offline.rs:60-103 | In every run a queued row is returned by the recipient's next fetch unless acknowledged or purged before, after every returned row whose message has an earlier time stamp |
| `Reconnect.BackoffGrows` | shared/types/ws-protocol.ts:95-96 | Minimum delays never fall from one attempt to the next and never pass the cap |
| `Reconnect.DelayBound` | shared/types/ws-protocol.ts:91-100 | A delay is the base delay doubled with every attempt, or the cap, plus the random part of one base delay |
| `Reconnect.WsClient.DoConnect` | client/src/main/ws/client.ts:65-137 | Replaces timer and socket, and falls back to a scheduled retry when the socket cannot be made |
| `Reconnect.WsClient.OnClose` | client/src/main/ws/client.ts:95-119 | Gives up for codes 4002 and 4003 and keeps its counters; for every other it waits or, with its attempts used up, gives up; field by field |
| `Reconnect.WsClient.ScheduleReconnect` | client/src/main/ws/client.ts:126-137 | Waits, or gives up once the attempts are used up |
| `Reconnect.WsClient.ConnectTo` | client/src/main/ws/client.ts:35-39 | Starts over with the given url |
| `Reconnect.WsClient.DisconnectNow` | client/src/main/ws/client.ts:41-50 | Drops url, timer and socket and says disconnected |
| `Reconnect.WsClient.Retry` | client/src/main/ws/client.ts:59-63 | Starts over with the url there is |
| `Reconnect.WsClient.OnOpen` | client/src/main/ws/client.ts:83-86 | Connected, with the attempts counted afresh |
| `Reconnect.Replay` | client/src/main/ws/client.ts:35-150 | The object after the callbacks of any legal run is in the state the run ends in |
| `Reconnect.RunGoesOn` | client/src/main/ws/client.ts:65-137 | A run can go on with a callback if and only if it is one of a socket or timer that the client holds then |
| `Reconnect.EveryRunIsSane` | client/src/main/ws/client.ts:35-150 | In every state reachable from an idle client (`Reconnect.IdleIsSane`): a timer means no socket and reconnecting; connected means a socket; reconnecting means a timer or a socket; no url means idle; each timer's delay fits its attempt |
| `Reconnect.ConnectedBeforeOpen` | client/src/main/ws/client.ts:65-86 | The status says connected without an open socket exactly after dialling again while connected |
| `Reconnect.FailuresGiveUp` | client/src/main/ws/client.ts:126-137 | However attempts fail, at most the remaining timers fire, then the client is disconnected; exactly that many if the server never refuses for good |
| `Reconnect.ConnectGivesUp` | client/src/main/ws/client.ts:35-137 | From a connect on, at most maxAttempts timers fire before the client is disconnected |
| `Voice.VoiceState.JoinChannel` | server/src/voice/state.rs:69-97 | Refused exactly when the channel has a positive limit and as many participants; otherwise the user is last and once, after the others in their order, no other channel changes, and the warning tells whether eight or more were there |
| `Voice.VoiceState.LeaveChannel` | server/src/voice/state.rs:100-109 | Removes one user from one channel, and the entry if it becomes empty |
| `Voice.VoiceState.UpdateState` | server/src/voice/state.rs:120-130 | Flags change for the first match only |
| `Voice.VoiceState.LeaveAllChannels` | server/src/voice/state.rs:135-157 | Visiting the channels in any order returns exactly those the user was in, once each, and leaves the other users, in their order (`Voice.WithoutIsInOrder`), with no empty entry |
| `Voice.Replay` | server/src/voice/state.rs:69-157 | The object after the handlers' steps of any legal run holds the run's channels |
| `Voice.WithoutKeeps` | server/src/voice/state.rs:86 | Removing a user keeps the presence of all others and the absence of duplicates |
| `Voice.WithoutIsInOrder` | server/src/voice/state.rs:86 | The participants who stay, stay in their order |
| `Voice.FlaggedIs` | server/src/voice/state.rs:120-130 | Where nobody is listed twice, exactly the one participant's flags change |
| `Voice.LeaveAllMembership` | server/src/voice/state.rs:135-157 | After leaving all channels a user is nowhere, and everybody else where they were |
| `Voice.JoinMembership` | server/src/voice/state.rs:69-97 | A join adds one channel to one user's channels |
| `Voice.LeaveMembership` | server/src/voice/state.rs:100-109 | A leave takes one channel from one user's channels |
| `Voice.RunGoesOn` | server/src/voice/signaling.rs:47-88 | A run can go on with the end of a join if and only if that join has begun, and with the beginning of one if and only if its user has none in flight |
| `Voice.OneJoinAtATime` | server/src/voice/signaling.rs:47-88 | From the empty table (`Voice.EmptyIsWellFormed`), with one join per user in flight, every interleaving of all handlers keeps each user in one channel at most and once, no empty entry, and no channel above its cap |
| `Voice.SecondJoinBreaksIt` | server/src/voice/signaling.rs:47-88 | From every such state, a second join begun while the first is in flight ends with the user in both channels, if each has room for one more |
| `Grouping.GroupDmMessages` | client/src/renderer/src/components/DmChatView.tsx:49-110 | The groups concatenate to the input; neighbours in one are of one sender and one day and at most five minutes apart, and the last and first of neighbouring groups are not; the separators are the days in order of first appearance, each right before a group of its day |
| `Grouping.GroupingIsUnique` | client/src/renderer/src/components/DmChatView.tsx:76-97 | Only one division of a message list into such groups exists |
| `RollingWindow.Prune` | client/src/main/blocks/protocol.ts:61-67 | The loop over the queue's front leaves exactly the entries of the window |
| `RollingWindow.ForgottenIsOld` | client/src/main/blocks/protocol.ts:69-70 | What was kept adds up to what the full log would, if only old entries were dropped |
| `RollingWindow.NetworkStats.GetNetworkStats` | client/src/main/blocks/protocol.ts:57-79 | For a clock that does not go back, totals are those of all transfers since the reset, and speeds the full log's last ten seconds divided by ten, whatever earlier queries forgot |
| `RollingWindow.NetworkStats.RecordUpload` | client/src/main/blocks/protocol.ts:115-120 | A served block is counted once in each figure |
| `RollingWindow.NetworkStats.RecordDownload` | client/src/main/blocks/protocol.ts:194-196 | A verified block is counted once in each figure |
| `RollingWindow.NetworkStats.Reset` | client/src/main/blocks/protocol.ts:82-88 | Starts a new log |

## Left out

- Empty blocks: L0 cannot hold them, so they are not values of the model's block type.
- Failing disks, databases and locks, and the `catch` blocks that swallow their errors.
- A crash between writing a block's file and its row, on either side; each store operation is one step.
- Text time stamps and their comparison as strings; times are integers.
- Hex, base64, JSON and protobuf encodings of requests, and trimming of message contents.
- Cascade.TryServer: what the URL parser and the router make of a text that is no hash is not modelled; the response is any body.
- The passphrase key derivation, and a change of the block-store key between two unlocks.
- Limits and timeouts of the cascade's requests, other than that a request may stay unanswered.
- Budget and TTL settings that are not numbers.
- SQLite's choice between rows that compare equal in an ORDER BY, except that every choice is allowed in the sweep, the offline queue and the rotation listing.
- Identity.IdentityTables.Register: display names, setup tokens and the consuming of an invite code are not modelled; their outcomes come in.
- Access tokens (JWT), bans, TOTP, invites, settings, permissions, presence and reactions: separate, short checks.
- Sessions.ChallengeUsedOnce: a login event names its user; whose public key may answer a challenge is not modelled, and nothing here promises that it is the user's own.
- Provisioning.TransferCompletes: the timers and the saving of the received identity after the reply are not modelled.
- Low-order X25519 points, which the key exchange refuses.
- Gossip.GossipNode.PublishMessage: a counter of 2 to the 64, which does not fit the envelope's field, and the time stamps of envelopes are not modelled.
- DirectMessages.DmTables.SendMessage: who counts as online is any boolean; the registry lookup is by public key while entries are kept by user id.
- MessageLog.CursorIsHonoured: speaks of tables with fewer than 2 to the 63 rows, which is all an i64 can number.
- MessageLog.QueryIsDescending: takes the users' public keys to be distinct; the join for display names repeats a row for every further user with the sender's key.
- The display names themselves, and reactions.
- Late events of a WebSocket the client has replaced, and listeners that call back into the client at once.
- Voice.OneJoinAtATime: each call of the voice state is one step; the window between dropping an entry's lock and removing the entry is not modelled.
- Relaying of voice offers, TURN credentials and broadcasts.
- The peer directory, whose two maps are not kept inverse to each other.
- Labels and ids of displayed groups, and the calendar: the day of a time is any function.
- RollingWindow.NetworkStats.GetNetworkStats: assumes a clock that does not go back.
- libp2p, thumbnails, notifications, windows and the other React components.
