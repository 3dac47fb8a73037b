# SwarmNL replication and sharding, verified

This project models the protocols that SwarmNL builds on top of libp2p: the replica buffer
with its two consistency models, the Lamport clocks that order it, the texts the nodes
exchange, and the membership protocol of sharded networks. It proves what these protocols
promise for every input, every run and every interleaving. libp2p appears only as an
environment that carries messages.

`dafny verify dfyconfig.toml` checks everything.

## How the model is built

- `Prelude`, `Framing`, `Decimal`, `Entries`, `OrderedBuffer`: options and `u64` with
  saturating arithmetic, `join` and `split` at the leftmost delimiter, decimal printing and
  parsing, entries with their consumption order, and the ordered set of entries as a strictly
  increasing sequence (inserting an equal key keeps the old element).
- `Eviction`: the two loops that make room in the public buffer, both proved against one
  description of what stays.
- `Codec`, `Gossip`, `KeyBytes`: the pull response, the gossip frames and their dispatch, and
  the saved key bytes.
- `ReplicaBuffer`, `CoreNode`: the node. Functions on values say what an operation does to the
  buffers and the clock of one network; the classes `ReplicaBufferQueue` and `Core` keep those
  for all networks and are proved to do exactly that in place.
- `StrongNet`, `StrongRelease`: a network of nodes under strong consistency. A run is any sequence
  of publishing, accepting, counting a confirmation, releasing and consuming; the steps use the
  functions that specify the classes. `StrongNet` has what is safe in every run, `StrongRelease`
  says exactly when a message is released, when it still can be, and how it is lost.
- `AntiEntropy`, `EventualNet`, `Convergence`, `Causality`: a network under eventual
  consistency, where every message travels as the text that the codecs produce and the four
  parts of a pull (advertise, compare, serve, absorb) interleave with everything else; then a
  round of anti-entropy, and Lamport clocks over whole runs.
- `Attribution`, `SelfEcho`: which payloads can make a reader see an entry of somebody else, and
  what that means for the senders of all entries in a network.
- `ShardState`, `ShardNet`, `ShardExits`, `ShardRouting`: the shard map of a node and its algebra,
  concurrent joins and exits of a network, when an exit lasts, and the routing loops.
- `NodeSteps`: the methods of the node, given the texts that the network models carry, leave the
  node as the steps of these models leave it. So what is proved of runs is proved of the node.
- `DataQueue`: the bounded queue of the event loop.

The environment is modelled as follows. A gossip message reaches each receiver at most once and
never its sender, in any order, possibly never. A message id is fresh, non-empty and alphanumeric
(the printed source followed by a sequence number) and does not parse as a peer id. A peer id is
its printed base58 text of at least 46 characters, and exactly such texts parse as peer ids. Texts
are sequences of characters. The membership of a replica network does not change during a run, and
`replica_peers` answers with all other members. Time is an argument of each step. The node that
consumes an RPC is the one that sent it. A capacity of zero is excluded, because the eviction
loops of the code do not end then. Steps under one lock are atomic; counting and releasing are
separate steps, as are comparing, serving and absorbing, and as are entering a join and sending
the image.

Several claims have an exact condition, proved in both directions: the pull response and every
gossip frame arrive unchanged exactly if the payload does not collide with the delimiters
(`Codec.RoundTrip`, `Gossip.DecodesExactly`); the senders of all entries with a payload are kept
exactly if the payload is attributable (`Attribution.AttributableExactly`); after any run a
message can still be released at a node exactly if the node has not given it up and has not missed
too many of its confirmations, and it is released exactly if enough arrived while it was staged
and it was not given up (`StrongRelease.ReleasableExactly`, `StrongRelease.ReleasedExactly`);
merging an image revives an exited peer exactly if the image has it
(`ShardState.StaleImageRevives`); a quorum is met in every run exactly if the network is not a
pair with a larger quorum configured (`StrongNet.QuorumExactly`); the clock condition holds
exactly below the largest clock (`Causality.ClockCondition`); an exchange brings all that is due
exactly if the receiver has not consumed past the advertiser's clocks or lacked nothing
(`Convergence.ExchangeExactly`); exiting undoes joining exactly for a peer that was absent from a
shard without an empty registration (`ShardState.ExitUndoesJoin`).

## Where the code and its documentation differ

The model follows the code.

- `leave_repl_network` promises that the buffer survives for a quick return, but joining again
  replaces it with an empty one (`swarm-nl/src/core/replication.rs:170-180`).
- `exit_network` says that a node in no shard leaves the gossip network; it sends a request to
  join it (`swarm-nl/src/core/sharding.rs:148-151`).
- The default configuration is documented with a queue length of 100; the code uses 150
  (`swarm-nl/src/core/replication.rs:71-73`, `swarm-nl/src/core/replication.rs:138`).
- The quorum of a `MinPeers` configuration is skipped in a network of two nodes
  (`swarm-nl/src/core/replication.rs:310-315`).
- A confirmation that arrives before its message is dropped, and a fully confirmed message can be
  given up before it is moved; both keep the message from ever becoming public at that node
  (`swarm-nl/src/core/replication.rs:297-302`, `swarm-nl/src/core/replication.rs:411-428`).
- Data that contains the fields of an entry can be pulled as a message of another sender, even of the
  puller itself (`swarm-nl/src/util.rs:147-186`).

## Model

| member | source | states |
|---|---|---|
| U64.Saturates | swarm-nl/src/core/mod.rs:1093-1097 | Sums stop at the largest number, differences at zero. |
| Entries.Base58Exactly | swarm-nl/src/core/mod.rs:1970-1974 | The characters that a text read as a peer id consists of. |
| Entries.KeyLessTotal | swarm-nl/src/core/replication.rs:98-121 | Two entries are equal exactly when neither precedes the other by clock and then message id. |
| Entries.KeyLessTrans | swarm-nl/src/core/replication.rs:98-112 | The entry order is transitive. |
| Entries.TextLessExactly | swarm-nl/src/core/replication.rs:98-102 | Ids are compared in ascending order: one precedes another exactly if it is a proper beginning of it or has the smaller character where they first differ. |
| Entries.KeyLessExactly | swarm-nl/src/core/replication.rs:98-112 | Entries are ordered by ascending clock, and by ascending id under one clock. |
| OrderedBuffer.InsertCorrect | swarm-nl/src/core/replication.rs:284 | Inserting keeps the order and every element, and adds the new one exactly if its key was free. |
| OrderedBuffer.SortedUnique | swarm-nl/src/core/replication.rs:132 | Two buffers with the same elements are iterated in the same order. |
| OrderedBuffer.FirstIsKept | swarm-nl/src/core/replication.rs:646-650 | Of several inserted entries with one key the first one is kept. |
| Eviction.EvictInterleaved | swarm-nl/src/core/replication.rs:249-281 | The loop of eventual `push` ends and leaves what `Evicted` describes, from any starting size. |
| Eviction.EvictRetainTrim | swarm-nl/src/core/replication.rs:436-464 | Expiring once and trimming leaves the same buffer as the interleaved loop. |
| Eviction.EvictedMeaning | swarm-nl/src/core/replication.rs:436-464 | Everything stays below capacity; otherwise only unexpired entries stay, and one is dropped only if capacity - 1 later unexpired ones stay. |
| Eviction.FreshExactly | swarm-nl/src/core/replication.rs:445-452 | An entry counts as expired exactly if the configured time has passed since it was sent. |
| Eviction.RoomAfterEviction | swarm-nl/src/core/replication.rs:249-284 | The insertion after eviction leaves at most `capacity` entries, also if the buffer was overfull. |
| ReplicaBuffer.ReplicaBufferQueue.constructor | swarm-nl/src/core/replication.rs:149-155 | A new buffer holds no network. |
| ReplicaBuffer.ConfigMeans | swarm-nl/src/core/replication.rs:138-147 | The values of the default configuration, and that a custom one is used as given. |
| ReplicaBuffer.PeersCountMeans | swarm-nl/src/core/replication.rs:395-408 | The required number of confirmations is the number of other members under `All` and the configured number under `MinPeers`. |
| ReplicaBuffer.ReplicaBufferQueue.Init | swarm-nl/src/core/replication.rs:170-180 | Joining replaces the buffers of one network by empty ones and leaves all others. |
| ReplicaBuffer.ReplicaBufferQueue.Push | swarm-nl/src/core/replication.rs:183-345 | Under eventual consistency the entry goes to the public buffer after eviction; under strong consistency it is staged and confirmed by gossip, or public at once for two nodes or one confirmation. |
| ReplicaBuffer.ReplicaBufferQueue.PushStaged | swarm-nl/src/core/replication.rs:289-341 | The strong branch, including the loss of the smallest staged id at capacity and the exact gossip it sends. |
| ReplicaBuffer.WithRoomExactly | swarm-nl/src/core/replication.rs:297-302 | Below 150 staged entries nothing is given up; otherwise exactly one entry, the one with the smallest id. |
| ReplicaBuffer.PushStrongMeaning | swarm-nl/src/core/replication.rs:289-341 | Acceptance in full: public at once for one known peer or one confirmation and otherwise staged; everything else stays but the smallest id of a full staging area. |
| ReplicaBuffer.PushEventualMeaning | swarm-nl/src/core/replication.rs:249-284 | Acceptance under eventual consistency in full: the key is public, the capacity respected, nothing lost while there is room, and otherwise only expired and earliest entries. |
| ReplicaBuffer.ReplicaBufferQueue.PopFront | swarm-nl/src/core/replication.rs:348-364 | The earliest entry is removed and returned, and every entry that stays comes after it by clock and id; nothing for an empty or unknown network. |
| ReplicaBuffer.ReplicaBufferQueue.CountConfirmation | swarm-nl/src/core/replication.rs:394-428 | One confirmation is counted up to the required number, and the decision is made on the new count. |
| ReplicaBuffer.ReplicaBufferQueue.MoveConfirmed | swarm-nl/src/core/replication.rs:430-474 | Room is made, and the entry moves to the public buffer if it is still staged. |
| ReplicaBuffer.CountedMeaning | swarm-nl/src/core/replication.rs:411-423 | A confirmation raises the count of its entry by one below the required number and changes nothing else; the entry is confirmed exactly at that number. |
| ReplicaBuffer.ReleasedMeaning | swarm-nl/src/core/replication.rs:430-472 | Releasing takes the entry out of the staging area and makes its key public within the capacity; what it evicts is expired or precedes all that stays. |
| ReplicaBuffer.ReplicaBufferQueue.HandleDataConfirmation | swarm-nl/src/core/replication.rs:388-474 | Both halves together, with no other network touched. |
| ReplicaBuffer.ReplicaBufferQueue.Advertise | swarm-nl/src/core/replication.rs:490-547 | One round advertises what `AdvertisementOf` says of the aged part of the buffer, and nothing for an unknown network. |
| ReplicaBuffer.AgedExactly | swarm-nl/src/core/replication.rs:499-503 | An entry is advertised once more than the aging period has passed since its arrival. |
| ReplicaBuffer.ReplicaBufferQueue.PrepareSync | swarm-nl/src/core/replication.rs:562-636 | Which pull request an advertisement leads to, if any. |
| ReplicaBuffer.SyncRequestExactly | swarm-nl/src/core/replication.rs:570-624 | A request is sent exactly if the advertised clocks exceed the one consumed last, the advertiser parses as a peer and something is missing; it asks for all that is missing. |
| ReplicaBuffer.ReplicaBufferQueue.PullMissingData | swarm-nl/src/core/replication.rs:658-717 | The response text for a request: the whole buffer for an empty first id, otherwise the entries under the requested ids; nothing for an unknown network. |
| ReplicaBuffer.SelectedMeaning | swarm-nl/src/core/replication.rs:671-681 | An empty first id selects the whole buffer, any other request exactly the held entries under its ids, in buffer order. |
| ReplicaBuffer.ReplicaBufferQueue.InsertResponse | swarm-nl/src/core/replication.rs:639-650 | The parsed entries are inserted one by one into an existing network buffer. |
| ReplicaBuffer.ReplicaBufferQueue.ReplicateBuffer | swarm-nl/src/core/replication.rs:720-765 | Cloning inserts the reply, and fails without a change for an unknown network or a failed request. |
| ReplicaBuffer.CloneIsWhole | swarm-nl/src/core/replication.rs:671-712 | The answer to a clone request is read as exactly what the server holds, in order, if that is clean and unconfirmed. |
| ReplicaBuffer.CloneBuffer | swarm-nl/src/core/replication.rs:720-765 | After cloning, the cloner has all it held and an entry for every key of the server, and nothing else. |
| ReplicaBuffer.MissingMeaning | swarm-nl/src/core/replication.rs:582-619 | An id is asked for exactly if it is advertised without the node's own name and no local entry inside the interval has it. |
| ReplicaBuffer.MissingAscending | swarm-nl/src/core/replication.rs:586-619 | Ids are asked for in ascending order, each once. |
| ReplicaBuffer.FirstKeyExists | swarm-nl/src/core/replication.rs:298-302 | A non-empty staging area has a first key to give up. |
| Framing.JoinOfSplit | swarm-nl/src/core/mod.rs:1433 | Joining undoes splitting for every text. |
| Framing.SplitOfJoin | swarm-nl/src/core/mod.rs:1433 | Splitting undoes joining exactly if no delimiter starts inside a part, not even with the help of the delimiter behind it. |
| Decimal.ParseOfPrint | swarm-nl/src/util.rs:164-166 | A printed number is parsed back, and refused exactly beyond the limit of the type. |
| Decimal.NoNumberIsZero | swarm-nl/src/util.rs:164-166 | A text that is no number counts as zero, and so does a number beyond the limit; a plus sign is allowed. |
| Codec.MarshalEntries | swarm-nl/src/core/replication.rs:683-712 | The loop over the requested entries builds their texts, joined by the entry delimiter. |
| Codec.EntryOnTheWire | swarm-nl/src/core/replication.rs:689-705 | The text of an entry, with its fields in order, character for character. |
| Codec.EntriesOnTheWire | swarm-nl/src/core/replication.rs:683-712 | Several entries follow each other behind `@@@`, several data items behind `$$`. |
| Codec.UnmarshalMessages | swarm-nl/src/util.rs:147-186 | The nested loops return the entries of all well-formed pieces in order. |
| Codec.MalformedIsSkipped | swarm-nl/src/util.rs:156-183 | A piece with fewer than six fields or without a peer in the sixth is skipped; of any other, which field becomes what. |
| Codec.ParsedIsClean | swarm-nl/src/util.rs:160-185 | Whatever was received, an entry read from it does not collide with the delimiters and carries no count. |
| Codec.RoundTrip | swarm-nl/src/core/replication.rs:683-712 | A response is read back as the same entries in the same order without counts, exactly if every entry is clean. |
| Codec.RelayIsFaithful | swarm-nl/src/util.rs:147-186 | Entries pulled from any response can be served onward unchanged. |
| Codec.HalfDelimiterIsLost | swarm-nl/src/core/replication.rs:689 | A data item ending in `$` in front of another item is not read back. |
| Codec.EmptyDataIsLost | swarm-nl/src/core/replication.rs:689 | A message without data items is not read back. |
| Gossip.FrameIsFaithful | swarm-nl/src/core/mod.rs:1433 | A frame splits into the parts it was made of exactly if names and data do not collide with `~~##~~`. |
| Gossip.SeparableDecodes | swarm-nl/src/core/mod.rs:1892-1996 | All five protocol messages are decoded by the event loop as they were sent if their payload is separable. |
| Gossip.DecodesExactly | swarm-nl/src/core/mod.rs:1892-1996 | Each of the five protocol messages is decoded as it was sent exactly if its payload is separable. |
| Gossip.ReplicatedArrives | swarm-nl/src/core/mod.rs:1896-1917 | Whatever the data, times, clock and network arrive as sent and the data as it is split again. |
| Gossip.ReplicatedDecodes | swarm-nl/src/core/mod.rs:1231-1243 | What `replicate` frames is decoded to the same timestamp, clock, network and data exactly if the payload is separable. |
| Gossip.ShardJoinDecodes | swarm-nl/src/core/mod.rs:1970-1988 | A join announcement is understood exactly if the shard name contains no separator. |
| Gossip.ShardExitDecodes | swarm-nl/src/core/mod.rs:1989-1996 | An exit announcement is understood exactly if the shard name contains no separator. |
| Gossip.ConfirmationDecodes | swarm-nl/src/core/mod.rs:1929-1945 | A confirmation is understood exactly if network and id do not collide with the separator. |
| Gossip.AdvertisementDecodes | swarm-nl/src/core/mod.rs:1946-1968 | An advertisement is understood exactly if names and ids do not collide with the separator. |
| Gossip.OtherTextsReachApplication | swarm-nl/src/core/mod.rs:1997-2003 | A text whose first part is none of the five flags reaches the application as its parts. |
| Gossip.MalformedTexts | swarm-nl/src/core/mod.rs:1892-1996 | Which flagged texts make the event loop index out of range, and which are ignored. |
| Gossip.LenientTexts | swarm-nl/src/core/mod.rs:1896-1996 | What is read from any flagged text with enough parts: numbers that cannot be read are zero, surplus parts are dropped. |
| Gossip.ReplicatedOnTheWire | swarm-nl/src/core/mod.rs:1230-1236 | The text of a replicated message, character for character. |
| Gossip.ConfirmationOnTheWire | swarm-nl/src/core/replication.rs:322-327 | The text of a confirmation. |
| Gossip.AdvertisementOnTheWire | swarm-nl/src/core/replication.rs:529-547 | The text of an advertisement. |
| Gossip.ShardMessagesOnTheWire | swarm-nl/src/core/sharding.rs:92-126 | The texts that announce a join and an exit. |
| KeyBytes.SavedBytesReadBack | swarm-nl/src/util.rs:104-113 | Every byte vector is read back from its debug form, also the empty one. |
| KeyBytes.JunkIsSkipped | swarm-nl/src/util.rs:104-113 | Blanks around a number do not matter; what is no byte is skipped. |
| CoreNode.Core.constructor | swarm-nl/src/core/replication.rs:149-155 | A new node has joined no network. |
| CoreNode.Core.JoinReplNetwork | swarm-nl/src/core/mod.rs:1139-1149 | Joining keeps existing clocks and starts from an empty buffer. |
| CoreNode.Core.JoinShardNetwork | swarm-nl/src/core/sharding.rs:63-104 | Joining a shard enters the node, joins the replica network of the shard with an empty buffer and announces the join. |
| CoreNode.Core.Replicate | swarm-nl/src/core/mod.rs:1213-1236 | The clock of the network moves by one and the message carries the new clock; an unknown network is an error without effect. |
| CoreNode.Core.HandleIncomingReplData | swarm-nl/src/core/mod.rs:1086-1104 | The clock passes the maximum of both clocks and the entry is pushed, only for a joined network. |
| CoreNode.Core.ConsumeReplData | swarm-nl/src/core/replication.rs:348-386 | The earliest entry is handed out, every entry that stays comes after it, and its clock is remembered, also for a network without clocks. |
| CoreNode.Core.HandleGossip | swarm-nl/src/core/mod.rs:1889-1996 | The reaction to any gossip text: which state changes and what is sent, with a new message staged with a count of one under strong consistency and without a count otherwise. |
| StrongNet.RunKeepsInv | swarm-nl/src/core/replication.rs:289-474 | Every run keeps the invariants of copies, confirmations, staged counts, releases and public entries. |
| StrongNet.Agreement | swarm-nl/src/core/replication.rs:388-474 | A released message was accepted by the required number of nodes other than its publisher; under `All` by every other node, each confirmation having arrived after staging. |
| StrongNet.PublicIsReleased | swarm-nl/src/core/replication.rs:466-472 | What the application reads was released, is what the publisher sent, and carries the configured count: the number given, or that of all other members. |
| StrongNet.QuorumExactly | swarm-nl/src/core/replication.rs:304-315 | In every run every public message was accepted by the configured number of nodes, or by all other members under `All`, exactly if the network is not a pair with a quorum above one. |
| StrongNet.StagedCount | swarm-nl/src/core/replication.rs:411-420 | A staged entry always has a count, the number of nodes known to have it capped at the required number; for `MinPeers(k)` at k. |
| StrongNet.EligibleExactly | swarm-nl/src/core/replication.rs:411-428 | A confirmation makes an entry eligible exactly from the (k - 1)-th one after staging on for `MinPeers(k)`, and under `All` exactly when it is the last one. |
| StrongNet.ReleasedOnce | swarm-nl/src/core/replication.rs:466-472 | However handlers interleave, a node releases a message at most once. |
| StrongNet.StagingBounded | swarm-nl/src/core/replication.rs:297-302 | No run stages more than the fixed capacity. |
| StrongNet.TravelsAsText | swarm-nl/src/core/mod.rs:1896-1945 | The copies and confirmations of the model are what the texts of the protocol are read as; the data is unchanged exactly if it is separable. |
| NodeSteps.AcceptCopy | swarm-nl/src/core/mod.rs:1896-1928 | A node that handles the text of a message is the node after accepting it in the network model, with the entry staged with a count of one and confirmed. |
| NodeSteps.HearConfirm | swarm-nl/src/core/mod.rs:1929-1945 | A node that handles the text of a confirmation is the node after hearing it and, if that completes the count, after the release. |
| NodeSteps.ConsumePublic | swarm-nl/src/core/replication.rs:348-386 | A node that hands out an entry is the node after consuming in the network model. |
| StrongRelease.RunKeepsFlow | swarm-nl/src/core/replication.rs:289-474 | In every run an accepted message is staged, released or given up, a fully confirmed staged one has a handler, and every confirmation is in flight, counted or missed. |
| StrongRelease.ReleasedExactly | swarm-nl/src/core/replication.rs:411-474 | Unless its handler is on its way, an accepted message was released exactly if it was not given up and the required number of confirmations came while it was staged. |
| StrongRelease.QuietReleasedExactly | swarm-nl/src/core/replication.rs:388-474 | In a quiet network a message was released exactly if it was not given up and enough nodes remain whose confirmation was not missed. |
| StrongRelease.AllReleasedExactly | swarm-nl/src/core/replication.rs:395-428 | Under `All`, exactly if it was not given up and no confirmation was missed. |
| StrongRelease.RoomForAll | swarm-nl/src/core/replication.rs:297-302 | Nothing is given up before more messages were published than a node can stage. |
| StrongRelease.AcceptKeepsAll | swarm-nl/src/core/replication.rs:297-302 | Accepting below 150 staged entries gives up nothing. |
| StrongRelease.AcceptGivesUpOne | swarm-nl/src/core/replication.rs:297-302 | Accepting at a full node gives up exactly the smallest staged id; every other staged entry stays, at every node. |
| StrongRelease.StepGivesUpOne | swarm-nl/src/core/replication.rs:289-474 | No step of a run loses more than one entry for lack of room, and only an acceptance does. |
| StrongRelease.Settles | swarm-nl/src/core/replication.rs:289-474 | Every situation can come to rest without further publications. |
| StrongRelease.ReleasableExactly | swarm-nl/src/core/replication.rs:388-474 | After every run, some continuation has the message released at a node exactly if the node has not given it up and has not missed too many of its confirmations. |
| StrongRelease.MissedBlocks | swarm-nl/src/core/replication.rs:411-428 | Under `All`, one missed confirmation keeps the message from being released in every continuation. |
| StrongRelease.EarlyConfirmationBlocks | swarm-nl/src/core/replication.rs:411-428 | Under `All`, a confirmation that arrives while its message is not staged keeps the message from ever being released at that node. |
| StrongRelease.EarlyConfirmationArises | swarm-nl/src/core/replication.rs:321-341 | A run of three members in which such a confirmation is in flight. |
| StrongRelease.EvictedForever | swarm-nl/src/core/replication.rs:297-302 | What was given up is never released. |
| StrongRelease.ConfirmedYetLost | swarm-nl/src/core/replication.rs:411-474 | A run after which a message with all its confirmations, whose handler is on its way, can never be released. |
| AntiEntropy.AdvertisementArrives | swarm-nl/src/core/replication.rs:516-547 | An advertisement is decoded as it was made. |
| AntiEntropy.AdvertisementMeaning | swarm-nl/src/core/replication.rs:497-527 | An advertisement names exactly the aged entries with their publishers, and its interval is the smallest one with all their clocks. |
| AntiEntropy.MissingExactly | swarm-nl/src/core/replication.rs:586-619 | A receiver asks for exactly the advertised foreign messages it holds nowhere in its buffer. |
| AntiEntropy.IntervalLosesNothing | swarm-nl/src/core/replication.rs:508-514 | Comparing only inside the advertised clock interval gives the same request as comparing with the whole buffer. |
| AntiEntropy.ServedIsHeld | swarm-nl/src/core/replication.rs:669-680 | What is read from a served response is what the server holds under the requested ids. |
| AntiEntropy.PullIsIdempotent | swarm-nl/src/core/replication.rs:596-654 | A pull removes and alters nothing, adds only what the advertiser holds, and leaves to be asked for only what it lacked. |
| EventualNet.ReachableInv | swarm-nl/src/core/replication.rs:477-717 | In every situation buffers are ordered, entries are as published, and each exchange under way concerns foreign messages only. |
| EventualNet.WireSafeExactly | swarm-nl/src/core/replication.rs:683-712 | Published data counts as safe exactly if its message and its entry in a response are read back unchanged. |
| Convergence.ExchangeExactly | swarm-nl/src/core/replication.rs:570-577 | An exchange completes in four steps and brings all that is due exactly if the receiver has not consumed past it or lacked nothing. |
| Convergence.RoundDelivers | swarm-nl/src/core/replication.rs:477-717 | After an exchange of every ordered pair, in any interleaving with publications and receipts and after any earlier rounds, a node holds every foreign message that some node held at the start. |
| Convergence.RoundConverges | swarm-nl/src/core/replication.rs:477-717 | If nothing but the exchanges happens, it holds exactly these messages, each as published. |
| Convergence.RoundCompletes | swarm-nl/src/core/replication.rs:477-717 | From every situation in which all buffers have aged such a round is possible. |
| Convergence.PullsReachAll | swarm-nl/src/core/replication.rs:477-717 | A run in which one node receives a message and all others obtain it by pulls only: the conditions of a round can be met. |
| Convergence.SameDelivery | swarm-nl/src/core/replication.rs:98-121 | After the round two nodes hold the messages of all others in the same order with the same contents. |
| NodeSteps.PublishMessage | swarm-nl/src/core/mod.rs:1213-1236 | A node that replicates data is the node after publishing in the network model, and sends the text that travels there. |
| NodeSteps.ReceivePacket | swarm-nl/src/core/mod.rs:1896-1928 | A node that handles that text is the node after the receipt. |
| NodeSteps.ConsumeEntry | swarm-nl/src/core/replication.rs:348-386 | A node that hands out an entry is the node after consuming. |
| NodeSteps.AdvertiseBuffer | swarm-nl/src/core/replication.rs:490-547 | The text that a node advertises with is on its way to every other member. |
| NodeSteps.CompareAd | swarm-nl/src/core/replication.rs:562-636 | The reaction of a node to an advertisement is the request of the network model, or nothing. |
| NodeSteps.ServeRequest | swarm-nl/src/core/replication.rs:658-717 | The answer of a node is the response of the network model. |
| NodeSteps.AbsorbResponse | swarm-nl/src/core/replication.rs:639-650 | A node that inserts a response is the node after absorbing it. |
| Causality.HeaderArrives | swarm-nl/src/core/mod.rs:1896-1917 | Clock and network of a replicated message arrive whatever its data is. |
| Causality.PublishMovesClock | swarm-nl/src/core/mod.rs:1218-1229 | Publishing raises the clock of the publisher by one, up to the largest number, sends the new clock and moves no other. |
| Causality.ReceiptMovesClock | swarm-nl/src/core/mod.rs:1086-1098 | A receipt puts the clock of the receiver one past the later of both clocks, up to the largest number, and moves no other. |
| Causality.HappensBeforeMeaning | swarm-nl/src/core/mod.rs:1086-1098 | Happens-before contains the order of the events of each node, relates a publication to its receipts, is transitive, and relates earlier events to later ones only. |
| Causality.ClockCondition | swarm-nl/src/core/mod.rs:1086-1098 | Of two events related by happens-before the earlier has the smaller clock, exactly below the largest number. |
| Causality.MessageClocks | swarm-nl/src/core/mod.rs:1218-1235 | The clocks carried by causally related messages are ordered in the same way. |
| Attribution.AttributableExactly | swarm-nl/src/util.rs:147-186 | Every entry read from a served one has its sender, whatever ids, clocks and times, exactly if the payload is attributable. |
| Attribution.AttributableReads | swarm-nl/src/util.rs:147-186 | What is read of an attributable payload has the id and the sender it was served with. |
| SelfEcho.NoSelfEcho | swarm-nl/src/core/replication.rs:586-594 | If all published data is attributable, no node ever buffers or consumes its own message, also not through pulls, and every entry names a message and its publisher. |
| SelfEcho.SafeDataIsTraceable | swarm-nl/src/util.rs:147-186 | Data that survives the codecs is attributable. |
| SelfEcho.ForgedEcho | swarm-nl/src/util.rs:147-186 | A run in which a node pulls a message of its own that nobody published, forged in the data of another. |
| Causality.DrainInOrder | swarm-nl/src/core/replication.rs:348-386 | Repeated consumption delivers the buffer in order, each entry once, and leaves the last clock behind. |
| Causality.DrainRespectsCausality | swarm-nl/src/core/replication.rs:98-112 | Of two messages buffered at the same time, the one consumed later did not happen before the other. |
| ShardState.ShardingInfo.UpdateShardState | swarm-nl/src/core/mod.rs:1027-1046 | A join adds the peer; an exit removes it and dissolves an empty shard. |
| ShardState.ShardingInfo.MergeShardStates | swarm-nl/src/util.rs:232-245 | The loop over an image computes the pointwise union, in any iteration order. |
| ShardState.ShardingInfo.JoinNetwork | swarm-nl/src/core/sharding.rs:76-104 | The shard map's part of it: the node enters itself and announces it; without a network id nothing happens. |
| ShardState.ShardingInfo.ExitNetwork | swarm-nl/src/core/sharding.rs:107-155 | The node removes and announces itself, and sends a further request exactly if it is in no shard. |
| ShardState.JoinedExactly | swarm-nl/src/core/mod.rs:1027-1046 | A join adds one peer to one shard and creates the shard if need be; nothing else changes. |
| ShardState.ExitedExactly | swarm-nl/src/core/mod.rs:1027-1046 | An exit removes one peer from one shard, and the shard if nobody is left; nothing else changes. |
| ShardState.MergedExactly | swarm-nl/src/util.rs:232-245 | A merge has exactly the peers and shards of both maps. |
| ShardState.MergeCommutes | swarm-nl/src/util.rs:232-245 | Merging is commutative. |
| ShardState.MergeAssociates | swarm-nl/src/util.rs:232-245 | Merging is associative. |
| ShardState.MergeAbsorbs | swarm-nl/src/util.rs:232-245 | Merging changes nothing exactly if the image brings nothing new. |
| ShardState.NoEmptyShardStays | swarm-nl/src/core/sharding.rs:116-119 | Joins, exits and merges never leave an empty shard. |
| ShardState.ExitUndoesJoin | swarm-nl/src/core/mod.rs:1027-1046 | Joining and exiting restores the map exactly if the peer was absent and the shard not registered empty. |
| ShardState.StaleImageRevives | swarm-nl/src/util.rs:232-245 | Merging an image after an exit brings the exited peer back exactly if the image has it. |
| ShardNet.NeverInvented | swarm-nl/src/core/mod.rs:1970-1988 | In every situation a map names only joins that were started. |
| ShardNet.NeverEmpty | swarm-nl/src/core/sharding.rs:116-119 | No run of joins, exits and merges leaves an empty shard in a map or an image. |
| ShardNet.JoinsConverge | swarm-nl/src/core/sharding.rs:63-104 | Once nothing is pending, the map of every joined node names each peer whose join began after its earlier exits from the shard were handled and that has not left since; of the peers that never exited the shard it names exactly those that joined. |
| ShardNet.JoinedNodesAgree | swarm-nl/src/core/mod.rs:1050-1067 | Without exits all joined nodes then have the same map. |
| ShardNet.LastingExactly | swarm-nl/src/core/sharding.rs:63-155 | The joins that the convergence speaks of are exactly those that began after the earlier exits of the peer were handled and were not followed by another. |
| ShardNet.ComesToRest | swarm-nl/src/core/sharding.rs:63-155 | Every situation can come to rest without further joins and exits. |
| NodeSteps.HearJoin | swarm-nl/src/core/mod.rs:1970-1988 | A node that handles the announcement of a join has the map that the network model gives it. |
| NodeSteps.HearExit | swarm-nl/src/core/mod.rs:1989-1996 | Likewise for the announcement of an exit. |
| NodeSteps.MergeImage | swarm-nl/src/core/mod.rs:1815-1822 | Likewise for an image. |
| NodeSteps.StartJoin | swarm-nl/src/core/sharding.rs:76-104 | Joining leaves the node as in the network model, and announces this join. |
| NodeSteps.LeaveShard | swarm-nl/src/core/sharding.rs:107-133 | Exiting likewise. |
| ShardExits.ExitLasts | swarm-nl/src/core/sharding.rs:107-155 | An exit lasts if nothing was pending when the peer left, no join is announced until everybody has handled it, and the peer does not join the shard again. |
| ShardExits.ExitCompletes | swarm-nl/src/core/sharding.rs:107-155 | A peer that leaves a quiet network can be forgotten by everybody without a disturbance. |
| ShardExits.StepKeepsForgotten | swarm-nl/src/core/mod.rs:1027-1067 | A peer that nobody names stays forgotten, whoever else joins and exits, until it joins again. |
| ShardExits.ExitUndone | swarm-nl/src/core/sharding.rs:107-133 | A run in which an image on its way brings a peer back after everybody has handled its exit. |
| ShardExits.RejoinForgotten | swarm-nl/src/core/sharding.rs:121-140 | A run in which the late announcement of an exit removes a peer that has joined the shard again. |
| ShardRouting.Forward | swarm-nl/src/core/sharding.rs:204-219 | Forwarding succeeds exactly if some peer accepts, stops at the first one that does, and otherwise has asked every peer. |
| ShardRouting.Shard | swarm-nl/src/core/sharding.rs:159-220 | The result depends on the peers' replies but not on the shuffle. |
| ShardRouting.Fetch | swarm-nl/src/core/sharding.rs:224-284 | The first answer with data is returned, and an error exactly if there is none. |
| ShardRouting.ShuffleExactly | swarm-nl/src/core/sharding.rs:198-202 | A shuffle has every peer exactly once. |
| DataQueue.DataQueue.Push | swarm-nl/src/core/prelude.rs:710-716 | A full queue drops its oldest element; what was pushed is what left followed by what is held. |
| DataQueue.DataQueue.Pop | swarm-nl/src/core/prelude.rs:705-707 | Elements leave in the order in which they were pushed. |

## Left out

- EventualNet.ReachableInv: speaks of runs whose published data survives the codecs; `Codec.RoundTrip` and `Gossip.ReplicatedDecodes` give the exact condition, and other data is changed on the way.
- SelfEcho.NoSelfEcho: attributable data only; `SelfEcho.ForgedEcho` is the run in which other data breaks it, and `Attribution.AttributableExactly` the condition on a payload.
- Causality.DrainRespectsCausality: below the largest clock, where clocks no longer tell messages apart; of messages in the buffer at the same time, since one that arrives late is consumed late; and gossip receipts only, since pulls do not advance a clock.
- Convergence.RoundDelivers: published data survives the codecs; no exchange is under way when the round starts; no node has consumed past the latest clock that another holds, since the code then asks for nothing; the printed name of a node does not occur by accident in the ids of others, because the code filters by substring; nodes advertise only once their start buffers have aged; and nothing is evicted or consumed meanwhile.
- Convergence.RoundConverges: the same conditions, and nothing is published or received meanwhile.
- StrongNet.Agreement: static membership; a count can pass the required number when the peer count shrinks, and then the entry is never released.
- ShardNet.JoinsConverge: says nothing of a peer that has left a shard and has not joined it again after the exit was handled; an image on its way can bring it back (`ShardExits.ExitUndone`), and a late announcement can remove it again (`ShardExits.RejoinForgotten`). Announcements and images are not lost.
- ReplicaBuffer.ReplicaBufferQueue.Push: a capacity of zero, for which the eviction loop does not end.
- StrongNet.RunKeepsInv: the steps pass messages as values; `StrongNet.TravelsAsText` ties them to the texts.
- A cap on the public buffer: pulls, clones and the direct strong path insert without eviction.
- Locks and their order, request timeouts, and the matching of replies to requests.
- The timers of the synchronisation loop, which always use the built-in waiting time.
- UTF-8 and lossy decoding, JSON of shard images (taken as the identity), and base58 decoding of peer ids.
- The swarm, transports, dialing, Kademlia, identify, ping policy, configuration files and key generation.
- Stream ids and the request and response buffers, the bodies of forwarded requests, and application events: simple plumbing.
