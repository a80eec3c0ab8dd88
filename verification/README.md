# A verified model of the blockchain P2P messenger

The messenger floods signed chats through a room of peers. A node that receives a chat
acknowledges it, waits until enough room members have done so, and then appends the chat to
the room's hash-linked log. The peer list and the administrator list are read back from that
same log. This project models that machinery in Dafny and proves what it keeps over every
message, every run and every interleaving.

## How it is built

| module | what it holds |
|---|---|
| `GoText` | the Go string functions the program relies on, over byte strings |
| `FiniteSets` | sizes of finite sets |
| `Blocks` | blocks, hashes, valid chains, tamper evidence |
| `ChainStore` | the in-memory chains and their files: class `Blockchains`, cache coherence, truncation |
| `PeerLog`, `PeerHistory`, `PeerDetails` | the peer list as text in the log; what any history of additions and clears shows; class `Directory` |
| `Auth` | the administrator list as a fold over the log; class `Authority` |
| `AckProtocol` | the mutex sections of ack handling as functions of the node state |
| `AckRuns`, `AckTheorems` | all interleavings of those sections, their invariant, and what follows from it |
| `CommitOrder`, `TickFixpoint`, `Confluence` | the order of commits and blocks; what ticks alone achieve; which batches end up in one order on every node |
| `QuorumRuns`, `Quorum`, `Signatures` | a committing run for every quorum; exactly when two commits must share an acking peer; exactly when the backers of a commit signed |
| `GossipHandler`, `Gossip` | one handler call from start to end; class `GossipNetwork`, which implements it |
| `Flood`, `FloodBound`, `FloodStep` | the flood of one message through many nodes; why it stops at 11 nodes; its nodes are `GossipNetwork` objects |
| `Acceptance` | which messages a node accepts, who signed the chats it queues and commits, what its own ack says and does |
| `ChatText` | a reader of block texts that gets every field of a committed chat back |
| `EndToEnd` | floods, acks, ticks and logs together: finished floods leave all nodes with equal logs |
| `Integrity` | the consensus integrity score; class `StatCollector` |

The code that updates state in place is modelled by classes whose methods keep the program's
branches and loops. Each method is tied to a specification function on values, and the lemmas
are about those functions. The same functions are the steps of the interleaved runs
(`AckRuns`), so a theorem about runs is a theorem about what the methods do:
`GossipHandler.HandlerIsRun` shows that a handler call is a run, and
`FloodStep.HandlerIsDelivery` that it is a delivery of the flood.

SHA-256, ed25519, Yggdrasil address derivation, `json.Marshal` and the pattern search of the collector are constants of function
type without a definition, so every lemma holds of every such function. No hash is taken to be
injective: tamper evidence reads "equal logs, or here are two records with one hash".

Clock readings, message ids, random draws and the order in which Go walks a map are parameters
or nondeterministic choices. Integers are unbounded; `int(float64(n) * 0.66)` is `66 * n / 100`.

## What is not as the code or its comments suggest

Each of these is a lemma, with the exact condition where there is one.

- An ack's `RoomID` is not checked before the unauthenticated pass (line 604), and a commit made
  by an ack goes to the ack's room (line 888), not the node's. The node's own log receives the chat
  exactly when the two agree (`AckTheorems.CommitGoesToRoomOfAck`); otherwise the chat counts as
  committed and never reaches it (`QuorumRuns.AcksForOtherRoomLoseChat`).
- That first pass also precedes the signature check, and the pass behind it finds the ack processed. What an
  ack does depends on the key it names and not on its signature (`GossipHandler.AckCountsBeforeAuthentication`),
  so a quorum of acks need not come from the peers it names (`Signatures.UnsignedAcksCommit`). Every backer did
  sign exactly when no unsigned ack that can count is processed (`Signatures.BackersSignExactlyWhen`).
- Timestamps are whole seconds and ties are not broken: all tick schedules write one log exactly when tied
  chats that are ready for commit carry equal data (`Confluence.TiesDecideTheLog`).
- `ReplaceChain` accepts any longer chain, valid or not, and `clearBlockchainForRoom` rewrites the
  file without looking at the cache. These are the only two operations that can break the agreement of
  cache and file or the validity of a chain (`ChainStore.CoherentExactlyWhenHarmless`).
- The clear command drops the cache and then truncates the file. A load in between undoes the clear:
  the next `AddBlock` writes every cleared block back (`ChainStore.LoadBetweenStepsUndoesClear`).
- The clear command reports that chats were removed; chats before the last block that contains
  "PEER_ADDED" stay (`ChainStore.KeptIsCut`).
- `DeriveIPAddressFromPublicKey` reports errors as texts with spaces. Printed in place of an IP, such
  a text shifts the fields, and a listed administrator with a malformed key loses the flag as soon as
  the list is printed again (`PeerLog.SecondRoundTrip`, `PeerHistory.SeenIsAddedExactlyWhen`).
- The block of `RemovePeer` cannot be read back: unless its JSON holds a `$`, the next look at the peer list
  panics, until somebody writes another peer block without looking (`PeerHistory.RemovalMakesPeersUnreadable`).
- The threshold of 66 % does not make quorums intersect in rooms of 4 and 6 peers: there, two possible
  runs commit with disjoint backers, even when every ack is honestly signed (`Quorum.HonestQuorumsIntersect`). It is computed before the node
  lists itself; nodes that were not listed yet run with the threshold of one peer less, and two of them can
  commit with disjoint backers for six list sizes, one of them and a later starter for four
  (`Quorum.ThresholdOfLateJoiner`).
- A TTL of 10 covers every connected network of up to 11 nodes, and not every one of any larger size
  (`FloodBound.CoverageExactlyUpToEleven`); larger ones are covered when long ways have short cuts, as in a
  full mesh (`Flood.FloodCoverage`, `Flood.WellConnectedOriginIsCovered`). With 12 nodes, a neighbour's neighbour of the origin can
  be missed, because the message may reach the node between them over a long path first
  (`FloodBound.LongWayRoundHidesShortWay`).
- The integrity score is described as a share of honest nodes; the code takes every reported chain,
  attackers included, and uses the list of honest nodes only to return 0 when it is empty
  (`Integrity.StatCollector.AssessConsensusIntegrity`).

## Model

| member | source | states |
|---|---|---|
| Blocks.PositionIsIndex | src/blockchain/blockchain.go:58-72 | In a chain whose neighbours pass `IsBlockValid`, every block's index is its position, its hash is its own, and only the first has an empty previous hash |
| Blocks.PrefixIsValid | src/blockchain/blockchain.go:58-72 | Every non-empty prefix of a valid chain is valid |
| Blocks.GeneratedBlockExtends | src/blockchain/blockchain.go:43-55 | Appending a generated block keeps a chain valid, adds exactly its data to the log and stamps it with the time given |
| Blocks.Utf8Decodes | src/blockchain/blockchain.go:35 | The bytes hashed for a block index decode, bit by bit as RFC 3629 lays them out, to the index, or to U+FFFD for what is no code point |
| Blocks.Utf8EqualExactlyWhen | src/blockchain/blockchain.go:35 | Two indexes share their bytes exactly when they are equal or both show as U+FFFD |
| Blocks.Utf8PrefixFree | src/blockchain/blockchain.go:35 | The encoding of a block index in the hashed record is prefix-free, although several indexes share U+FFFD |
| Blocks.RecordReadsBack | src/blockchain/blockchain.go:33-40 | The hashed record of a chain's block reads back as its index, data and previous hash, in this order |
| Blocks.RecordSplitsUniquely | src/blockchain/blockchain.go:33-40 | Equal records inside valid chains have equal data, previous hashes and, short of the surrogates, indexes |
| Blocks.HashFixesPrefix | src/blockchain/blockchain.go:33-72 | Two blocks with one hash sit at the same position over equal logs, or a collision is exhibited |
| Blocks.LogFixesHash | src/blockchain/blockchain.go:30-40 | Equal logs give equal hashes at every position, whatever the timestamps |
| Blocks.FinalHashDecidesLog | src/blockchain/blockchain.go:30-72 | Final hashes of valid chains agree if the logs do, and only then, up to an exhibited collision |
| ChainStore.Blockchains.constructor | src/blockchain/blockchain.go:20-28 | A process starts with no chain in memory and whatever files there are |
| ChainStore.Blockchains.SaveBlockchainToFile | src/blockchain/blockchain.go:87-103 | The room's file becomes what is in memory for the room; nothing else changes |
| ChainStore.Blockchains.LoadBlockchainFromFile | src/blockchain/blockchain.go:118-157 | A cached room is left alone, a room with a file is read, a new room gets a saved genesis block |
| ChainStore.Blockchains.GetBlockchain | src/blockchain/blockchain.go:180-188 | Returns the room's chain as any reader sees it and at most loads it |
| ChainStore.Blockchains.AddBlock | src/blockchain/blockchain.go:160-177 | Memory and file of the room both become the old chain and one generated block |
| ChainStore.Blockchains.ReplaceChain | src/blockchain/blockchain.go:75-84 | Memory and file take the new chain exactly when it is longer |
| ChainStore.Blockchains.ClearBlockchain | src/blockchain/blockchain.go:191-193 | The room leaves memory, its file stays |
| ChainStore.Blockchains.ClearBlockchainForRoom | src/network_gossip/network_gossip.go:1226-1280 | Only the file changes: nothing that contains "PEER_ADDED" is cut off, and what is left ends with such an entry or is the first block; a missing file is an error |
| ChainStore.AfterLastPeerBlock | src/network_gossip/network_gossip.go:1249-1257 | The backward search stops behind the last entry that contains "PEER_ADDED" |
| ChainStore.NewRoomHoldsGenesis | src/blockchain/blockchain.go:130-141 | A room never written to shows the entry "Genesis Block" alone |
| ChainStore.KeptIsCut | src/network_gossip/network_gossip.go:1249-1267 | The truncation is the one cut that ends with the last entry containing "PEER_ADDED", or with the first entry if there is none |
| ChainStore.ClearRemovesWhatFollows | src/network_gossip/network_gossip.go:1249-1267 | Entries behind the last mention of a peer are all gone after a clear |
| ChainStore.CoherentExactlyWhenHarmless | src/blockchain/blockchain.go:75-193 | Cache equal to file and all chains valid: an operation keeps this if and only if it is not an over-long invalid replacement or a truncation that cuts under the cache |
| ChainStore.CoherentOverRuns | src/blockchain/blockchain.go:75-193 | Any sequence of harmless operations keeps every cached chain equal to its file and every chain valid |
| ChainStore.LogsAfter | src/blockchain/blockchain.go:75-193 | What each operation does to the log of each room; other rooms are never touched |
| ChainStore.LengthNeverFalls | src/blockchain/blockchain.go:75-84 | Over any sequence of harmless operations a chain gets shorter only by truncation |
| ChainStore.KeptIsStable | src/network_gossip/network_gossip.go:1249-1267 | Truncating a truncated log changes nothing |
| ChainStore.ClearRoomTruncates | src/network_gossip/network_gossip.go:822-836 | Both steps of the clear command together keep coherence, cut the room's log behind the last mention of a peer and leave the other rooms alone |
| ChainStore.ClearRoomTwice | src/network_gossip/network_gossip.go:822-836 | Clearing twice is clearing once |
| ChainStore.LoadBetweenStepsUndoesClear | src/network_gossip/network_gossip.go:826-829 | With a load between the two steps, the next added block restores every cleared block in the file |
| PeerLog.DerivedIPs | src/derivationFunctions/deriveKeyProperties.go:11-26 | A derived IP has no brace, and has no space exactly when the key is 64 hex digits |
| PeerLog.DeriveIPOutcome | src/derivationFunctions/deriveKeyProperties.go:11-26 | 64 hex digits of either case give the address, any other even number of them the size error, everything else the format error |
| PeerLog.PeerBlockText | src/peerDetails/peerDetails.go:45-59 | The block reads `PEER_ADDED$[{key ip flag}, ...]`, with key, IP and flag of every peer in order |
| PeerLog.PeerBlockRoundTrip | src/peerDetails/peerDetails.go:45-90 | Reading the block that `AddPeer` prints gives the same keys in order, derived IPs, and the admin flags of peers whose IP has no space |
| PeerLog.SecondRoundTrip | src/peerDetails/peerDetails.go:45-90 | Printing and reading what was read is the identity exactly when every peer read as admin has a well-formed key |
| PeerHistory.OtherBlockKeepsPeers | src/peerDetails/peerDetails.go:68-71 | A block without the prefix "PEER_" does not change the peer list |
| PeerHistory.ClearKeepsPeers | src/network_gossip/network_gossip.go:1249-1267 | Truncation yields a non-empty prefix with the same peer list, even when chats contain "PEER_ADDED" |
| PeerHistory.JoinAppendsPeer | src/peerDetails/peerDetails.go:26-62 | After `AddPeer` the list reads as the old list and the new peer |
| PeerHistory.MembersNeverShrink | src/peerDetails/peerDetails.go:26-99 | No addition, other block or clear makes the list unreadable or removes a member; an addition adds exactly its key |
| PeerHistory.SnapshotIsReplay | src/peerDetails/peerDetails.go:26-99 | After any history of additions, other blocks and clears, the newest snapshot lists every peer ever added, in order |
| PeerHistory.SeenIsAddedExactlyWhen | src/peerDetails/peerDetails.go:45-85 | The list is exactly what the additions asked for if and only if every admin came with a space-free IP and, once followed by another peer, has a well-formed key |
| PeerHistory.RemovalMakesPeersUnreadable | src/peerDetails/peerDetails.go:135 | After a removal the reader sees what it can parse of that block, whatever non-peer blocks follow; unless the JSON holds a `$` it panics |
| PeerDetails.Directory.constructor | src/peerDetails/peerDetails.go:21-23 | The directory starts with no remembered peers |
| PeerDetails.Directory.GetPeersInRoom | src/peerDetails/peerDetails.go:65-99 | Returns the list of the newest `PEER_` block, the empty list without one, and panics on a block it cannot read |
| PeerDetails.Directory.ReadPeerBlock | src/peerDetails/peerDetails.go:72-93 | The parsing loop computes the parse function that the round trip is about, panics included |
| PeerDetails.Directory.PrintPeer | src/peerDetails/peerDetails.go:47-51 | One peer is printed as its three fields between braces |
| PeerDetails.Directory.PrintList | src/peerDetails/peerDetails.go:45-57 | The printing loop computes the text that the round trip is about |
| PeerDetails.Directory.AddPeer | src/peerDetails/peerDetails.go:26-62 | Appends a snapshot of the old list and the new peer to the log and remembers it; an unreadable list panics and changes nothing |
| PeerDetails.Directory.AppendSnapshot | src/peerDetails/peerDetails.go:45-59 | The appended block is the printed list |
| PeerDetails.Directory.FilterPeers | src/peerDetails/peerDetails.go:109-117 | The loop keeps the peers with other keys in order and tells whether the key was listed |
| PeerDetails.Directory.RemovePeer | src/peerDetails/peerDetails.go:102-138 | Writes the list without the key; tells the error for an unlisted key from the panic of an unreadable list, and changes nothing in either case |
| PeerDetails.AddPeerIsJoin | src/peerDetails/peerDetails.go:26-62 | `AddPeer` on a coherent store is one join event on the room's log and leaves the other rooms alone |
| Auth.AdminExactlyWhenLastEventAdds | src/auth/auth.go:16-34 | For any log, duplicates included, a key is an administrator exactly when the last event for it is an ADD |
| Auth.ChangeAffectsOneKey | src/auth/auth.go:37-64 | Adding or removing an administrator and reloading changes the standing of that key only |
| Auth.Authority.constructor | src/auth/auth.go:9-13 | The list starts empty |
| Auth.Authority.LoadAdminsFromBlockchain | src/auth/auth.go:16-34 | The nested loops rebuild the list as the fold over the log, whatever it was before |
| Auth.Authority.IsAdmin | src/auth/auth.go:67-74 | Tells whether the key is in the loaded list |
| Auth.Authority.AddAdmin | src/auth/auth.go:37-49 | Appends an ADD event exactly when the chain handed in does not make the key an administrator |
| Auth.Authority.RemoveAdmin | src/auth/auth.go:52-64 | Appends a REMOVE event exactly when the chain handed in makes the key an administrator |
| AckProtocol.AckNamesItsChat | src/network_gossip/network_gossip.go:845-849 | The id parsed from an ack's text is the chat's id exactly when that id has no space |
| GoText.SplitJoins | src/peerDetails/peerDetails.go:74-80 | Splitting loses nothing and splits at every separator within its limit |
| ChatText.ItoaReadsBack | src/network_gossip/network_gossip.go:683-684 | Timestamps are printed in plain decimal and can be read back |
| ChatText.ChatReadsBack | src/network_gossip/network_gossip.go:785-786 | A block gives back the chat's key, kind, data, time and signature, whatever the data is, when the other texts hold no comma |
| ChatText.EqualBlocksMeanEqualChats | src/network_gossip/network_gossip.go:885-886 | Such chats have equal blocks exactly when they agree in all these fields |
| ChatText.OtherTextMeansOtherBlock | src/network_gossip/network_gossip.go:785-786 | Chats that differ in their text alone have different blocks, without any condition |
| ChatText.CommittedChatsReadBack | src/network_gossip/network_gossip.go:785-888 | Over any run short of a clear, every committed chat can be read back from the log, in commit order |
| AckRuns.StartSatisfiesInv | src/network_gossip/network_gossip.go:131-156 | A fresh node over a readable peer list satisfies the invariant |
| AckRuns.EnqueueSectionOutcome | src/network_gossip/network_gossip.go:704-752 | The enqueue section never finds its chat already queued and gives it one count for each peer that has acked it so far |
| AckRuns.RunAckKeepsInv | src/network_gossip/network_gossip.go:853-917 | An ack of a room member, new or repeated, early or late, keeps the invariant |
| AckRuns.RunChatKeepsInv | src/network_gossip/network_gossip.go:704-752 | Enqueueing with the delete and rebuild of `processedAcks` keeps the invariant |
| AckRuns.TickKeepsInv | src/network_gossip/network_gossip.go:767-806 | A tick keeps the invariant |
| AckRuns.TimeoutKeepsInv | src/network_gossip/network_gossip.go:807-817 | A timer keeps the invariant |
| AckRuns.StepKeepsInv | src/network_gossip/network_gossip.go:586-918 | Every section, and every other writer of the log, keeps the invariant |
| AckRuns.RunKeepsInv | src/network_gossip/network_gossip.go:586-918 | Every interleaving keeps the invariant |
| AckTheorems.HistoryIsInLabels | src/network_gossip/network_gossip.go:856-862 | The recorded history of acks and enqueued chats is what can be read off the run's steps |
| AckTheorems.ExactAckAccounting | src/network_gossip/network_gossip.go:601-916 | In every reachable state `processedAcks` is the set of peers whose ack was ever processed, and a queued chat's counter is that set's size |
| AckTheorems.PendingBufferIsExact | src/network_gossip/network_gossip.go:708-739 | Before its chat is enqueued an id's buffer holds one ack for each peer that acked it; the `alreadyProcessing` branch is never taken |
| AckTheorems.OrderOfAcksIsIrrelevant | src/network_gossip/network_gossip.go:720-739 | Any two runs in which the same peers acked a queued chat give it the same count |
| AckTheorems.QuorumSafety | src/network_gossip/network_gossip.go:601-872 | Every committed chat had acks of at least `thresholdAcks` distinct peers by then, all room members then and ever after |
| AckTheorems.Conservation | src/network_gossip/network_gossip.go:795-817 | Every enqueued chat is queued, committed or dropped, exactly one of these; queued and committed ids are unique |
| AckTheorems.RunOnlyAdds | src/network_gossip/network_gossip.go:586-918 | No run takes back a commit, a drop, an enqueueing or a membership |
| AckTheorems.RemovedChatsStayRemoved | src/network_gossip/network_gossip.go:588-594 | No later ack, tick, timer or copy queues or commits a removed chat again |
| AckTheorems.CommitGoesToRoomOfAck | src/network_gossip/network_gossip.go:888 | A commit made by an ack goes to the room the ack names; the node's log grows exactly when that is the node's room |
| AckTheorems.LogGrowsByCommits | src/network_gossip/network_gossip.go:785-888 | With acks for the node's room and no other writer, the log grows by exactly the committed chats in commit order |
| CommitOrder.StepMoves | src/network_gossip/network_gossip.go:704-916 | A step leaves the queue's chats alone, commits one that has none strictly before it, drops one, or lets a new one in |
| CommitOrder.TimestampOrder | src/network_gossip/network_gossip.go:773-897 | Of two chats ever queued together the strictly earlier is committed first if both are, whichever path commits them |
| CommitOrder.LogKeepsCommitOrder | src/network_gossip/network_gossip.go:785-888 | Whatever peers join and administrators change meanwhile, and short of a clear, the committed chats stand in the log in commit order |
| CommitOrder.TimestampOrderInLog | src/network_gossip/network_gossip.go:773-897 | Then the earlier chat's block also comes first in the room's log, with other writers in between, if acks carry the node's room and the room is not cleared |
| Confluence.BatchIsSorted | src/network_gossip/network_gossip.go:773-897 | Along any acks, ticks and other writes a batch is committed in ascending order of time, and what is committed precedes all that waits |
| Confluence.SortedTimesAgree | src/network_gossip/network_gossip.go:773-783 | Two sorted orders of one batch show the same timestamps |
| Confluence.BatchCommitsAgree | src/network_gossip/network_gossip.go:767-897 | Two nodes with any thresholds, at any distances from the authors, that wait for the same chats commit the same block data in the same order, when chats with equal timestamps carry equal data |
| Confluence.BatchConfluence | src/network_gossip/network_gossip.go:767-897 | With equal logs before and no other writer, their logs are equal once both have committed the batch; the TTL with which each node received a chat does not matter |
| Confluence.BatchNodesAgreeOnFinalHash | src/blockchain/blockchain.go:30-40 | Their chains then end in the same hash, whatever the block timestamps |
| Confluence.TieSplits | src/network_gossip/network_gossip.go:773-780 | Two ready chats with equal timestamps and different data have two tick schedules that write different logs |
| Confluence.TiesDecideTheLog | src/network_gossip/network_gossip.go:767-806 | From any state with unique ids, all tick schedules that end quiet write the same log exactly when ties of ready chats carry equal data |
| EndToEnd.FinishedFloodReachesAll | src/network_gossip/network_gossip.go:586-1096 | On a net whose forwarders connect all nodes, with at most 11 nodes or short cuts, a finished flood has reached everybody |
| EndToEnd.OwnAckServes | src/network_gossip/network_gossip.go:698-699 | The ack that a node makes for a chat as it heard it is one that the following results suppose |
| EndToEnd.WaitingHaveQuorum | src/network_gossip/network_gossip.go:601-916 | Once a node has handled the finished floods of a batch and of all acks, every waiting chat has its quorum |
| EndToEnd.BatchCommits | src/network_gossip/network_gossip.go:586-817 | As many fair rounds of ticks as chats are waiting then empty its queue and commit the whole batch |
| EndToEnd.NodesAgree | src/network_gossip/network_gossip.go:586-897 | Any two such nodes that gathered the batch before their first commit end with equal logs, when ties in the batch agree |
| EndToEnd.NodesAgreeOnFinalHash | src/blockchain/blockchain.go:30-40 | And their chains end in one hash |
| EndToEnd.ConfiguredThresholdIsReached | src/network_gossip/network_gossip.go:278-282 | The threshold that this supposes to be within reach is, for the configured one, exactly in rooms of two or more |
| TickFixpoint.QuietExactlyWhenNoneReady | src/network_gossip/network_gossip.go:767-806 | No tick has anything to commit exactly when no waiting chat has a quorum together with all strictly earlier ones |
| TickFixpoint.TickFixpoint | src/network_gossip/network_gossip.go:767-806 | Any schedule of ticks that ends quiet has committed exactly the ready chats, in timestamp order, and left exactly the others |
| TickFixpoint.CommittingTicksAreBounded | src/network_gossip/network_gossip.go:767-806 | In any schedule, idle ticks included, the committing ticks and the chats still waiting add up to the chats that were waiting |
| TickFixpoint.FairTicksFinish | src/network_gossip/network_gossip.go:767-806 | After as many rounds as chats are waiting, each round ticking every waiting chat in any order, nothing is left to commit |
| TickFixpoint.SomeScheduleFinishes | src/network_gossip/network_gossip.go:767-806 | From any state some schedule of at most as many ticks as chats leads to a quiet one |
| QuorumRuns.AnyQuorumCommits | src/network_gossip/network_gossip.go:704-900 | For any set of room members as large as the threshold there is a possible run whose only commit is backed by exactly that set |
| QuorumRuns.AcksForOtherRoomLoseChat | src/network_gossip/network_gossip.go:604-888 | If those acks carry another room, the chat counts as committed, is not in the node's log, and no continuation commits it again |
| QuorumRuns.HonestAcksAreSigned | src/network_gossip/network_gossip.go:696-700 | The acks of the exhibited runs can be those that every key signs itself |
| Signatures.RunKeepsApart | src/network_gossip/network_gossip.go:588-607 | In every run acks never share an id with a chat, and no chat without an id is committed |
| Signatures.SignedAcksMeanSignedBackers | src/network_gossip/network_gossip.go:601-607 | If every processed ack is signed by the key it names, every backer of every commit signed an ack for the chat, with any threshold |
| Signatures.BackersSignExactlyWhen | src/network_gossip/network_gossip.go:601-607 | For any condition on processed acks: in all runs every backer of every commit signed an ack for the chat exactly when the condition admits no unsigned ack of a listable key for another id |
| Signatures.UnsignedAcksCommit | src/network_gossip/network_gossip.go:601-607 | The first pass admits every ack, and so acks of one sender with signatures that fit nothing commit a chat in the name of any quorum |
| Quorum.CommitsOverlap | src/network_gossip/network_gossip.go:278-282 | Two commits of any two nodes, whenever started, share a backer if their thresholds together exceed the number of peers that either lists in the end |
| Quorum.ThresholdIsTwoThirds | src/network_gossip/network_gossip.go:278-282 | The threshold is the largest number that is at most 66 % of the peers, or 2 if that is larger |
| Quorum.CommitsShareExactlyWhen | src/network_gossip/network_gossip.go:278-282 | Over one room, any two commits of nodes with two thresholds share a backer exactly when the thresholds together exceed the number of members, for acks of any kind that every key can send |
| Quorum.ConfiguredThreshold | src/network_gossip/network_gossip.go:278-282 | Twice the configured threshold exceeds the number of peers for every number but 4 and 6, and it can be reached exactly from 2 peers on |
| Quorum.ConfiguredQuorumsIntersect | src/network_gossip/network_gossip.go:278-282 | In a room of n members, any two commits of nodes configured for n share a backer exactly when n is neither 4 nor 6 |
| Quorum.HonestQuorumsIntersect | src/network_gossip/network_gossip.go:278-282 | The same for runs in which every processed ack is signed by the key it names, and for runs with any acks |
| Quorum.ThresholdOfLateJoiner | src/network_gossip/network_gossip.go:278-353 | In a room of n + 1, two commits of nodes that computed the threshold over n peers share a backer exactly when n is none of six values; one such node and one configured for the room, none of four |
| PeerHistory.RoomOf | src/peerDetails/peerDetails.go:26-99 | Every finite set of printable keys is the membership of some room |
| Quorum.AnyTwoCommitsShareABacker | src/network_gossip/network_gossip.go:278-282 | Any two commits on any two nodes configured for the same n members share an acking member, for n other than 4 and 6 |
| GossipHandler.AcceptanceIgnoresTtl | src/network_gossip/network_gossip.go:219-252 | A message signed in the current format is accepted alike with any TTL |
| Acceptance.AuthenticExactlyWhen | src/network_gossip/network_gossip.go:210-266 | With authentication on, exactly a message of the given peer, a member, for this room, with a signature over one of the five texts written out passes |
| Acceptance.AcceptedExactlyWhen | src/network_gossip/network_gossip.go:586-636 | A new message is accepted exactly when its key is known and a member, its room is this one, its signature fits and it is not the own heartbeat |
| Acceptance.ForgedMessageDoesNothing | src/network_gossip/network_gossip.go:237-249 | A message other than an ack whose signature fits none of the five texts is remembered and otherwise ignored, and not passed on |
| Acceptance.SignedChatIsQueued | src/network_gossip/network_gossip.go:218-236 | A known member's chat for this room, signed over id, kind, data and time, is accepted and in ack mode queued |
| Acceptance.ChatsAreSigned | src/network_gossip/network_gossip.go:586-817 | After any messages, ticks and timers, every chat that a node queues or has committed was signed by the key it names, a member when it was handled |
| Acceptance.DirectChatIsLogged | src/network_gossip/network_gossip.go:681-693 | In direct mode an accepted chat enters its room's log at once and is never queued |
| Acceptance.ClearIsApplied | src/network_gossip/network_gossip.go:822-836 | An accepted clear command cuts its room's log behind the last mention of a peer and no other log; a rejected one does nothing |
| Acceptance.OwnAckNamesChat | src/network_gossip/network_gossip.go:698-699 | The own ack reads "ACK for message <id> from <author>", goes to the chat's room with TTL 10, and names the chat exactly when its id has no space |
| Acceptance.OwnAckCounts | src/network_gossip/network_gossip.go:696-752 | At a listed node in ack mode, an accepted chat is queued with a counter that includes the node's own ack |
| Acceptance.OwnAckIsAccepted | src/network_gossip/network_gossip.go:1069-1096 | If the node's signatures verify, every node of the room that knows and lists its key accepts its ack at any distance |
| GossipHandler.HandlerInOrder | src/network_gossip/network_gossip.go:586-643 | The case-by-case outcome of a handler is that of its statements in order |
| GossipHandler.EffectsKeepMembers | src/network_gossip/network_gossip.go:654-663 | Neither commits nor clears change who is in the room |
| GossipHandler.AckHandlerIsRun | src/network_gossip/network_gossip.go:586-643 | Handling an ack, with its unauthenticated and its authenticated pass, is a run with the same state and commits, while authentication is on |
| GossipHandler.HandlerIsRun | src/network_gossip/network_gossip.go:586-643 | Handling any message in ack mode, own ack included, is a run with the same state and log, while authentication is on |
| GossipHandler.SecondCopyDoesNothing | src/network_gossip/network_gossip.go:588-594 | Whatever messages, ticks, timers and changes of membership came in between, in any mode, a second message with the same id changes and commits nothing |
| GossipHandler.AckCountsBeforeAuthentication | src/network_gossip/network_gossip.go:601-636 | The outcome for an ack depends on its id and on whether the key it names is in the room (or known, with authentication off), not on its signature or its own room |
| Gossip.GossipNetwork.constructor | src/network_gossip/network_gossip.go:131-156 | A new node has seen, queued and counted nothing |
| Gossip.GossipNetwork.IsInRoom | src/network_gossip/network_gossip.go:654-663 | Tells whether the key is in the room's peer list |
| Gossip.GossipNetwork.AuthenticateMessage | src/network_gossip/network_gossip.go:210-266 | Accepts everything when authentication is off, else exactly a message of the given peer, a room member, for this room, whose signature fits one of the five formats |
| Gossip.GossipNetwork.FindPeer | src/network_gossip/network_gossip.go:609-622 | Finds a known peer with the message's key exactly when there is one |
| Gossip.GossipNetwork.FindQueued | src/network_gossip/network_gossip.go:711-716 | Finds the first queued chat with an id |
| Gossip.GossipNetwork.NoEarlierMessage | src/network_gossip/network_gossip.go:773-780 | Tells whether no other queued chat is strictly earlier |
| Gossip.GossipNetwork.SaveToBlockchain | src/network_gossip/network_gossip.go:783-788 | Exactly one room's log grows, by the chat's text; membership and all other logs stay |
| Gossip.GossipNetwork.ProcessAck | src/network_gossip/network_gossip.go:843-918 | The whole ack case computes the ack step of the runs, and nothing when the blockchain is off |
| Gossip.GossipNetwork.ProcessAckFor | src/network_gossip/network_gossip.go:853-917 | The same for the id parsed from the ack, the empty id included |
| Gossip.GossipNetwork.ProcessNewAck | src/network_gossip/network_gossip.go:865-913 | A new ack is counted if its chat waits and buffered otherwise |
| Gossip.GossipNetwork.MarkProcessed | src/network_gossip/network_gossip.go:856-862 | Records a peer's first ack for an id and tells whether it was the first |
| Gossip.GossipNetwork.BufferAck | src/network_gossip/network_gossip.go:906-912 | Appends the ack to the id's buffer |
| Gossip.GossipNetwork.CountAck | src/network_gossip/network_gossip.go:869-900 | Counts one ack for the chat and commits it to the ack's room exactly at quorum with no earlier chat waiting |
| Gossip.GossipNetwork.ReplayPendingAcks | src/network_gossip/network_gossip.go:723-739 | The rebuilt set and the count are the distinct peers of the buffer, and the buffer is gone |
| Gossip.GossipNetwork.EnqueueChat | src/network_gossip/network_gossip.go:704-752 | Computes the enqueue step of the runs |
| Gossip.GossipNetwork.CommitQueued | src/network_gossip/network_gossip.go:785-797 | The chat leaves the queue and its text enters the room's log, nothing else |
| Gossip.GossipNetwork.TickChat | src/network_gossip/network_gossip.go:767-806 | Computes the tick step of the runs |
| Gossip.GossipNetwork.TimeoutChat | src/network_gossip/network_gossip.go:807-817 | Computes the timer step of the runs |
| Gossip.GossipNetwork.ClearBlockchain | src/network_gossip/network_gossip.go:822-836 | Cuts the named room's log behind the last mention of a peer, leaves the others and the membership |
| Gossip.GossipNetwork.SelectRandomPeers | src/network_gossip/network_gossip.go:534-554 | Returns as many peers as asked, at distinct indices, exactly when the draws offer that many different indices |
| Gossip.UnusedIndexExists | src/network_gossip/network_gossip.go:544-551 | While peers are still to be chosen an unused index exists, so some draw ends the inner loop |
| Gossip.GossipNetwork.ForwardGossipMessage | src/network_gossip/network_gossip.go:1023-1066 | An attacker sends nothing; others send the message to distinct live peers, never themselves, as many as the fanout says; it fails exactly when a fanout limit needs more draws than given |
| Gossip.GossipNetwork.ForwardIfAlive | src/network_gossip/network_gossip.go:638-642 | Forwards with one unit of TTL less exactly when TTL is left |
| Gossip.GossipNetwork.GossipAck | src/network_gossip/network_gossip.go:696-700 | The node's own ack goes through its own handler and is flooded with TTL 9 exactly when it is accepted |
| Gossip.GossipNetwork.AckChat | src/network_gossip/network_gossip.go:695-703 | The own ack is made unless acks are off, and then flooded exactly when it is accepted |
| Gossip.GossipNetwork.AckAndEnqueue | src/network_gossip/network_gossip.go:695-752 | The chat is enqueued behind its own ack |
| Gossip.GossipNetwork.ProcessChatMessage | src/network_gossip/network_gossip.go:668-752 | A chat is saved at once in direct mode, else acked unless that is off and then enqueued; the ack is flooded exactly when it is made and accepted |
| Gossip.GossipNetwork.FirstAckPass | src/network_gossip/network_gossip.go:601-607 | An ack of a room member is processed before authentication |
| Gossip.GossipNetwork.PassesAuthentication | src/network_gossip/network_gossip.go:609-628 | Accepts exactly authentic messages of known peers |
| Gossip.GossipNetwork.ProcessGossipMessage | src/network_gossip/network_gossip.go:665-836 | Dispatches by kind; a chat in ack mode makes the node flood its ack, nothing else does |
| Gossip.GossipNetwork.HandleNewMessage | src/network_gossip/network_gossip.go:601-643 | Both passes, processing and forwarding of a message not seen before, the own ack's flood included |
| Gossip.GossipNetwork.AuthenticateAndProcess | src/network_gossip/network_gossip.go:609-642 | A known peer's authentic message is processed and forwarded, any other is neither |
| Gossip.GossipNetwork.ProcessAndForward | src/network_gossip/network_gossip.go:630-642 | An accepted message is processed and then forwarded if TTL is left |
| Gossip.GossipNetwork.HandleGossipMessage | src/network_gossip/network_gossip.go:586-643 | State and logs after any message are those of the handler's specification; it is forwarded exactly when new, accepted and with TTL left, and the own ack of an accepted chat likewise; it fails exactly when a fanout limit lacks draws |
| Flood.FirstReceiptTtl | src/network_gossip/network_gossip.go:586-643 | In every run each node's first copy came along a trail of distinct forwarders from the origin, each of which first heard the message with TTL 10 less its hops |
| Flood.FloodCoverage | src/network_gossip/network_gossip.go:586-1096 | With no fanout limit, and if on every way through exactly 12 different forwarders the last is a target of one of the first ten, then when nothing is in flight every node that forwarders connect to the origin has seen the message, in any delivery order |
| Flood.SmallNetIsCovered | src/network_gossip/network_gossip.go:1084 | Nets of at most 11 nodes, and nets without longer ways, meet that condition |
| Flood.WellConnectedOriginIsCovered | src/network_gossip/network_gossip.go:1084 | So does every net, of any size, whose origin knows all others |
| Flood.RunIsPaidFor | src/network_gossip/network_gossip.go:1037-1063 | Deliveries made and copies in flight never exceed the initial copies and one forwarding of each node reached since |
| Flood.FloodCost | src/network_gossip/network_gossip.go:1037-1063 | Every flood ends: sends are bounded by the sum of the nodes' fanouts |
| FloodBound.HopLimit | src/network_gossip/network_gossip.go:1084 | On every net no node more than ten hops away ever sees the message |
| FloodBound.SomeRunFinishes | src/network_gossip/network_gossip.go:586-643 | Every flood can be delivered to its end |
| FloodBound.LineStopsAtEleven | src/network_gossip/network_gossip.go:1084 | On a line no run reaches the twelfth node |
| FloodBound.CoverageExactlyUpToEleven | src/network_gossip/network_gossip.go:586-1096 | Finished floods cover every net of n nodes exactly when n is at most 11 |
| FloodBound.LongWayRoundHidesShortWay | src/network_gossip/network_gossip.go:586-643 | On a net of 12 a delivery order exists in which a node two hops away never sees the message |
| FloodStep.TargetsAreCandidates | src/network_gossip/network_gossip.go:1037-1041 | The flood's targets for a node are its live peers but itself, counted once each |
| FloodStep.HandlerIsDelivery | src/network_gossip/network_gossip.go:586-1066 | Handling a copy is a delivery that the flood allows: the same copies in flight, the first TTL recorded, the message remembered |
| Integrity.StatCollector.constructor | src/simulations/consensus_tests/main/consensusStatCollector.go:38-43 | The collector holds the honest nodes and the reported chains |
| Integrity.StatCollector.CollectHashes | src/simulations/consensus_tests/main/consensusStatCollector.go:416-426 | In any walking order, each final hash, decoded or found in the text, is collected once for each node that reported it, empty ones not at all |
| Integrity.StatCollector.CountHashes | src/simulations/consensus_tests/main/consensusStatCollector.go:431-434 | Each hash is counted as often as it was collected |
| Integrity.StatCollector.MostFrequent | src/simulations/consensus_tests/main/consensusStatCollector.go:437-444 | In any walking order, the reference hash has the largest count |
| Integrity.CountsFor | src/simulations/consensus_tests/main/consensusStatCollector.go:486-513 | A node counts for the hash of the last block it reported first, or for the last hash in a text that does not decode |
| Integrity.StatCollector.CountMatches | src/simulations/consensus_tests/main/consensusStatCollector.go:448-455 | Counts the collected hashes that equal the reference |
| Integrity.StatCollector.AssessConsensusIntegrity | src/simulations/consensus_tests/main/consensusStatCollector.go:384-474 | The score is the largest share of nodes with one final hash; 0 without honest nodes or reports |
| Integrity.ScoreIsUnique | src/simulations/consensus_tests/main/consensusStatCollector.go:437-458 | The score does not depend on map order or on ties |
| Integrity.FullScoreExactlyWhenAllAgree | src/simulations/consensus_tests/main/consensusStatCollector.go:448-458 | The score is 1 exactly when there are reports and all end in one hash |
| Integrity.FullScoreMeansEqualLogs | src/simulations/consensus_tests/main/consensusStatCollector.go:412-458 | Over reports that decode to valid chains, score 1 means equal logs or an exhibited collision, and equal logs give score 1 |

## Left out

- Sockets, JSON framing, the 1024-byte read buffers, `yggdrasilctl`, `.env` files, logging and CSV output: a delivery is a step and a file is a value. Reading and writing files succeeds.
- SHA-256, ed25519, hex coding of signatures, Yggdrasil address derivation and `json.Marshal`: functions without a definition. Of a digest only the length of 64 characters is used.
- JSON replaces invalid UTF-8 in block data when a chain is written; the model's files give back what was written.
- ChatText.ChatReadsBack: a comma in the key, kind or signature is outside; the data may hold anything.
- Peers whose keys or IPs hold a separator the printer does not escape: keys with a space or a brace and IPs with a brace are outside the round trip and the histories. IPs with spaces are inside.
- Gossip.GossipNetwork.SelectRandomPeers: the draws are a finite series and the result is `None` when they run out, because the inner loop ends only with probability 1.
- Gossip.GossipNetwork.AuthenticateMessage: does not model switching authentication on or off at run time (`disableAuth` is a setting of the node), nor the first loop over the formats, whose result the code discards.
- Gossip.GossipNetwork.HandleGossipMessage: the class method runs without interruption; interleavings with other handlers, ticks and timers are the subject of `AckRuns`. Sends are results, and their delivery is the subject of `Flood`.
- Gossip.GossipNetwork.IsInRoom: requires a peer list that can be read, since the program panics otherwise; `PeerHistory.RemovalMakesPeersUnreadable` says when it cannot.
- Integrity.StatCollector.AssessConsensusIntegrity: decoding a report and the pattern search in a text are undefined; the quotient is exact, without rounding.
- AckRuns.RunKeepsInv: a step is a whole mutex section; `AddPeer` and the clear command, which run outside the mutex, are single steps of a run. Runs allow ticks and timers of any id at any time and any number of passes over an ack, which is more than the program does.
- CommitOrder.TimestampOrderInLog: excludes a clear of the room between the commits, which may remove either block.
- EndToEnd.NodesAgree: supposes that a node queues the whole batch before its first commit; a chat that arrives after a later one was committed is committed after it.
- AckTheorems.QuorumSafety: speaks of ack mode; in direct mode (`noAckBlockchainSave`) a chat is saved without acks, and only at most once for each id.
- Quorum.ConfiguredThreshold: uses `66 * n / 100` for `int(float64(n) * 0.66)` and does not model rounding of the product; the number of listed peers counts a key listed twice as two.
- Flood.FloodCoverage: links lose nothing, and peers, fanout and acceptance do not change during the flood; a signature in the oldest format covers the TTL, so such a message is accepted at most by the nodes it reaches with the signed TTL.
- Message ids shorter than 8 characters and final hashes or node names shorter than 16, which panic in log output, are not treated specially.
- The fields `Category` and `TargetID` of a message, which no modelled code reads.
- Sending heartbeats, `clearAllData`, changing the fanout at run time, message receipts, reachability reports and the sending of chains to the collector: no effect on the modelled state.
- Attacker simulations, spam injection, launch scripts, key generation and metric averages: little structure.
- `src/consensus`, `src/dummy-consensus` and `src/test-consensus`: the protocol is that of the hbbft library, which is not part of this model.
- Unlocked access to maps from several goroutines and sharing of slices between them: values are copied.
