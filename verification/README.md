# Verified core of an Exonum node

Dafny proofs about the parts of this repository that hold its hardest promises: the BFT
consensus of an Exonum node, the Snappy compressor that its storage uses, the zero-copy binary
encoding of messages and structures, the stream codec, the chain and configuration tables with
the storage fork under them, the decimal fractions of the asset service, and the adjustable
propose timeout.  `dafny verify dfyconfig.toml` checks everything.

## How it is organised

**Consensus.**  `ConsensusModel` is the safety-relevant state of one node and its atomic actions.
`ConsensusSafety` composes nodes and arbitrary messages of faulty validators into runs and states
the invariant; `ConsensusInvariant` proves that every step keeps it and derives agreement.
`NodeHandler` is the handler object with its loops, queues and recursion: each method is proved to
be a sequence of enabled actions, recorded in a ghost history (`ConsensusHistory`, `HandlerSteps`),
to keep its tables consistent (`NodeBooks`), and to have the effect its caller relies on.
`ConsensusRefinement` shows that such a sequence is a call of the protocol, and `HandlerNetwork` lets
handler objects exchange messages and derives their agreement, the links of their chains and that no
message is lost.  `ConsensusProgress` and `NetworkProgress` are the other side: when the messages of
the correct validators arrive, every transaction is committed.  Hashes are injective by
construction, signatures are the key a message carries, panics set a flag, and the validators of a
height are a function of the chain below it.

**Snappy.**  `SnappyFormat` is the format as one recursive function on bytes.  The compressor
(`SnappyEmit`, `SnappyFragment`, `SnappyCompress`), the copy kernel (`SnappyCopy`), the chunked source
and length prefix (`SnappySource`), the four writers (`SnappyWriters`, `SnappyIOVec`,
`SnappyScattered`, under one interface in `SnappyWriter`), and the decompressor (`SnappyTable`,
`SnappyDecompress`, `SnappyUncompress`) keep their arrays, cursors and loops and are proved against
that function.  `SnappyLong` is about flat buffers of any length.

**Encoding.**  `EncodingTypes` has the field types, their values and the fixed-size fields;
`Encoding` has write, check and read for every type, with text in `Utf8`; `EncodingLayout` says what
the bytes are without a buffer; `EncodingRoundTrip` and `EncodingCanonical` are the two directions;
`EncodingLists` and `EncodingMessages` have the loops, structures and messages.  `Codec` is the stream
framing.

**Storage and the rest.**  `Fork` is the storage fork with its change log, `Chain` the tables on top,
`Decimal` the packed fraction, `Timeout` the moving average.  `Bytes`, `Bits`, `Division` and
`Wrappers` are shared.

## Where the code departs from its description

The model follows the code.  In these places the code does not do what its documentation or names
promise; each has a lemma or a method with the exact condition.

- The Snappy decoder keeps the length of a region in 32 bits and so never gets past a region of 2^32
  bytes or more (`SnappyDecompress.Decompressor.NextRegion`, `StitchOn`).  A flat buffer is accepted
  exactly when it is valid and shorter than that behind its length (`SnappyLong.UncompressWithin`);
  there are valid longer ones (`SnappyLong.NeverAccepted`), and inputs of 2^32 - 1 bytes that are
  compressed to one and do not come back (`SnappyLong.NeverRestored`).
- After a commit inside `handle_tx` a correct validator can prevote, at the new height, for a propose
  of the old one that the same transaction completed (`NodeHandlerModel.NodeHandler.HasFullPropose`,
  `HandleAllFull`, `LatePrevote`).
- A long Snappy literal whose four length bytes are all 255 is an empty literal for the decoder,
  while the format description gives it 2^32 bytes (`SnappyFormat.LongLengthMeans`).
- The check of a structure accepts bytes behind its last segment, so a structure is determined by
  its fields only if there are none (`EncodingMessages.StructCanonical`, `SlackIsAccepted`).
- `from_raw` does not look at the length in the header (`EncodingMessages.MessageCanonical`,
  `WrongLengthIsAccepted`), a time may carry a second or more of nanoseconds
  (`EncodingTypes.FixedCanonical`, `LateTime`), and a bit vector loses its length in bits
  (`EncodingTypes.BitsRoundTrip`).
- Clearing a prefix in a fork drops changes without logging them, so a rollback can lose changes
  from before the checkpoint (`Fork.Fork.Attempt`, `LostChange`), and it also deletes keys of the
  snapshot behind the prefix (`Fork.ClearedExactly`, `ClearedTooMuch`).  A transaction that panics
  can so destroy writes of earlier transactions of its block (`Chain.PanicLeavesNothing`,
  `PanicDestroys`).
- A node that stops between the two merges of the genesis block cannot create it afterwards
  (`Chain.Blockchain.CreateGenesisBlock`, `InterruptedGenesis`).
- `set_digit` counts places from the other end than `digit` and lets a digit above fifteen spill into
  another place (`Decimal.SetDigitMeans`), and a fraction with seventeen digits panics instead of
  failing (`Decimal.FromStr`, `SeventeenDigits`).  A fraction with a place above nine need not be below
  one (`Decimal.MulShrinks`, `NotShrinking`, `CutShrinks`).
- Accepted settings divide by zero when a block may hold no transactions, and when the optimal block
  load is one and a block is full (`Timeout.UndefinedExactly`, `UndefinedSettings`).  A block over the
  limit can take the timeout below its minimum (`Timeout.NextBounds`, `BelowMinimum`).

## Model

| member | source | states |
|---|---|---|
| ConsensusInvariant.Agreement | dep/exonum/src/node/consensus.rs:258-442 | In every run with fewer than a third of faulty validators at each height that correct nodes reach, two correct nodes that both hold a block at some height, at any two times of the run, hold the same block there, however each of them came to commit it. |
| HandlerNetwork.Network.Run | dep/exonum/src/node/consensus.rs:30-708 | Handler objects that receive any events in any order: every block held before is held by every handler that has a block at that height afterwards, as long as fewer than a third of the validators of the heights reached are faulty. |
| HandlerNetwork.Network.HandlersAgree | dep/exonum/src/node/consensus.rs:30-708 | In every state of such a network with few faulty validators any two handlers hold equal blocks at equal heights, and no correct validator has sent two different votes of one kind for one height and round. |
| HandlerNetwork.Dispatch | dep/exonum/src/node/consensus.rs:30-708 | Every event has the effect that its handler promises; no message that was delivered before is lost; and whatever arrives but a transaction, every prevote that the handler sends is for a propose of its own height. |
| HandlerNetwork.Network.Deliver | dep/exonum/src/node/consensus.rs:30-708 | One event at one handler has the effect its handler promises there, leaves every other handler as it is, adds exactly what the handler sends to the log, and keeps the invariant of the network. |
| HandlerNetwork.Network.HandlersLink | dep/exonum/src/node/consensus.rs:446-512 | In every chain of every handler each block above the genesis carries its height, the hash of the block before it and the hash of the state that its transactions lead to, and none of its transactions is in an earlier block. |
| HandlerNetwork.Network.HandlersKeepMessages | dep/exonum/src/node/consensus.rs:30-88 | No message is lost: unless the handler has stopped, a message that came no more than a height early is of a past height, or waits because its height or round has not come, or is of a round that has come and counts if it is authentic: a vote among the voters, an acceptable propose among the known ones. |
| NetworkProgress.CommitAll | dep/exonum/src/node/consensus.rs:597-708 | Progress: when fewer than a third of the validators are missing at every height, handlers that start a height with the same chain and pool have, once proposes, prevotes, precommits and the timeouts of rounds without a leader have reached them, the same longer chain and an empty pool, and every transaction of the pool is in that chain. |
| NetworkProgress.CommitOne | dep/exonum/src/node/consensus.rs:597-708 | From any round without a lock on, within as many rounds as there are validators every handler commits the same block, with as many transactions of the pool as a block takes, whoever is missing. |
| NetworkProgress.FullRound | dep/exonum/src/node/consensus.rs:91-442 | In a round whose leader is present every handler commits the block of the leader, which carries its transactions, its height, the hash of the last block and the hash of the new state, and stands at the beginning of the next height without it in its pool. |
| NetworkProgress.LeaderProposes | dep/exonum/src/node/consensus.rs:654-708 | The leader proposes, prevotes, and is in the round of its propose, or has committed it when it is alone. |
| NetworkProgress.DeliverPropose | dep/exonum/src/node/consensus.rs:91-149 | A waiting handler that gets the propose prevotes for it and is in its round. |
| NetworkProgress.DeliverPrevote | dep/exonum/src/node/consensus.rs:295-332 | A prevote for the propose counts at every handler in its round and keeps it there: it has not locked and has no majority, or has locked and sent its precommit, or has committed the block. |
| NetworkProgress.DeliverPrecommit | dep/exonum/src/node/consensus.rs:412-442 | The same for a precommit: the handler has no majority of precommits yet or has committed the block. |
| NetworkProgress.DeliverTimeout | dep/exonum/src/node/consensus.rs:634-651 | The timeout of a round without a lock moves a waiting handler to the next round and changes nothing else. |
| ConsensusProgress.AfterLock | dep/exonum/src/node/consensus.rs:383-409 | A node of the round that locks has sent its precommit, and no vote of its own stands against it. |
| ConsensusHistory.StretchGrows | dep/exonum/src/node/state.rs:895-984 | Over every stretch of every history the chain is only extended, and while a height lasts rounds, known proposes and counted votes only grow. |
| ConsensusRefinement.HandlerCall | dep/exonum/src/node/consensus.rs:30-708 | What a handler object did since an earlier moment is a call of its node in the protocol. |
| ConsensusRefinement.CallKeepsInv | dep/exonum/src/node/consensus.rs:30-982 | A whole call of a node, whatever it does, keeps the global invariant when few validators are faulty at the heights reached by its end. |
| ConsensusRefinement.FirstStep | dep/exonum/src/node/consensus.rs:30-982 | A call of a handler is a sequence of protocol steps of its node: its first action is a step of the system and the rest is a shorter call. |
| ConsensusInvariant.OneVotePerRound | dep/exonum/src/node/consensus.rs:870-906 | A correct validator signs at most one prevote and at most one precommit for each height and round of a run. |
| ConsensusInvariant.LocksAreBackedAndGrow | dep/exonum/src/node/state.rs:663-669 | In every reachable state a lock is on a propose with a prevote quorum in the locked round, which is not above the current round; within a height the locked round never falls, and the propose changes only with it. |
| NodeHandlerModel.NodeHandler.HasFullPropose | dep/exonum/src/node/consensus.rs:258-292 | An unlocked validator without a prevote in the round sends its prevote next; the prevote is for a propose of another height exactly when moreover the propose is of a past height at the call, and no other prevote sent is; when a precommit majority was waiting for the propose, the node commits or panics. |
| ConsensusInvariant.PrevoteHeights | dep/exonum/src/node/consensus.rs:258-292 | In no run is there a prevote of a correct validator for a propose of a later height. |
| NodeHandlerModel.NodeHandler.HandleAllFull | dep/exonum/src/node/consensus.rs:555-561 | Prevotes for a propose of another height are only sent after a commit in the same call, and only for proposes that were known before it; for the only validator two complete proposes always lead to one. |
| NodeHandlerModel.LatePrevote | dep/exonum/src/node/consensus.rs:517-561 | A run of a handler, alone in its network, that ends with a prevote for a propose of the height before. |
| ConsensusInvariant.LockGrows | dep/exonum/src/node/state.rs:663-669 | Within a height no action lowers the locked round, and a change of the locked propose raises it. |
| ConsensusInvariant.StepKeepsInv | dep/exonum/src/node/consensus.rs:258-442 | Every step of every correct node, with arbitrary messages of the faulty ones, keeps the invariant behind agreement. |
| ConsensusInvariant.RunInv | dep/exonum/src/node/consensus.rs:258-442 | The invariant holds in every state of every run. |
| ConsensusInvariant.NewPrevoteJustified | dep/exonum/src/node/consensus.rs:258-268 | A new prevote never contradicts an earlier precommit of the same node, unless a later prevote quorum released it. |
| ConsensusInvariant.OldPrevotesAllowPrecommit | dep/exonum/src/node/state.rs:1015-1031 | A precommit is only sent when no later prevote of the node stands against it. |
| ConsensusInvariant.CommitAgrees | dep/exonum/src/node/consensus.rs:446-512 | A block that a node commits does not conflict with the chain of any other correct node. |
| ConsensusInvariant.CertificateIsQuorum | dep/exonum/src/node/consensus.rs:909-982 | A list of precommits that passes the check proves a quorum of precommits of different validators in one round. |
| ConsensusSafety.QuorumsMeet | dep/exonum/src/node/state.rs:629-636 | Two majorities of the validators share a correct one when fewer than a third are faulty. |
| ConsensusSafety.CorrectAreMajority | dep/exonum/src/node/state.rs:629-636 | The correct validators alone are a majority exactly when fewer than a third are faulty. |
| ConsensusModel.LeadsOnce | dep/exonum/src/node/state.rs:565-569 | In as many consecutive rounds as there are validators each of them leads exactly once. |
| ConsensusModel.LeaderAtNextHeight | dep/exonum/src/node/state.rs:565-569 | One block more moves the leader like one round more. |
| ConsensusSafety.PrevoteQuorumUnique | dep/exonum/src/node/state.rs:895-923 | No two proposes have a prevote quorum in the same round. |
| ConsensusSafety.LaterQuorumsAgree | dep/exonum/src/node/consensus.rs:383-409 | After a precommit quorum for a propose, every later prevote quorum of the height is for the same propose. |
| ConsensusSafety.OneBlockPerHeight | dep/exonum/src/node/consensus.rs:335-380 | All precommit quorums of a height, in whatever rounds, are for one block. |
| NodeHandlerModel.NodeHandler.HandleConsensus | dep/exonum/src/node/consensus.rs:30-88 | A message of another height or without the signature of its validator changes nothing; one of the next height or of a later round waits and nothing else happens; a propose, prevote or precommit of this height has the effect of its handler, and unless the height is over it counts. No waiting message is lost, and none waits whose time has come. |
| NodeHandlerModel.NodeHandler.HandlePropose | dep/exonum/src/node/consensus.rs:91-149 | A propose on top of the last block, of the leader of its round and without committed transactions becomes known unless the node leaves the height, any other changes nothing. While transactions are missing nothing else happens; with all of them an unlocked validator prevotes for it, locks and precommits if that is a majority and commits if that is one too, and a majority of precommits that waited for it is committed by a node without a vote. |
| NodeHandlerModel.NodeHandler.HandleBlock | dep/exonum/src/node/consensus.rs:154-255 | A block sent to this node by an allowed peer under its signature, with a valid certificate, that is known or can be rebuilt from its transactions, is appended; the node panics when they give another block, drops it when one of them is committed or invalid, and when one of the checks or the certificate fails nothing changes. |
| NodeHandlerModel.NodeHandler.VerifyPrecommits | dep/exonum/src/node/consensus.rs:909-982 | True exactly for more than two thirds and at most all of the validators, all different, each precommit signed by its validator, for this block, this height and one round. |
| NodeHandlerModel.NodeHandler.LockFrom | dep/exonum/src/node/consensus.rs:268-275 | Afterwards no round of the range with a prevote majority for the known propose is above the lock, unless the node left the height; without such a round nothing changes. |
| NodeHandlerModel.NodeHandler.HandlePrevote | dep/exonum/src/node/consensus.rs:295-321 | The prevote is among the voters; when it completes a majority above the lock for a complete propose, the node locks on it in that round or later, or leaves the height, and in the current round with nothing waiting it sends its precommit and commits when there is a majority of these; otherwise nothing but the count changes. |
| NodeHandlerModel.NodeHandler.HasMajorityPrevotes | dep/exonum/src/node/consensus.rs:325-332 | A majority above the lock for a known propose moves the lock to that round or later; otherwise nothing changes. |
| NodeHandlerModel.NodeHandler.Lock | dep/exonum/src/node/consensus.rs:383-409 | The lock ends on the propose, on the last round with a majority, and every round in between has a prevote, unless the node commits, panics or waits for transactions; in the current round a validator sends its precommit and commits the block when that completes a majority. |
| NodeHandlerModel.NodeHandler.LockOn | dep/exonum/src/node/consensus.rs:391-404 | The lock moves to the round, and a validator sends its precommit for the block of the propose exactly when none of its prevotes in later rounds is for another propose. |
| HandlerSteps.LockSends | dep/exonum/src/node/consensus.rs:391-404 | A validator that locks sends its precommit exactly when no prevote of its own, in a round after the one it locks in, is for another propose. |
| NodeHandlerModel.NodeHandler.FindIncompatiblePrevote | dep/exonum/src/node/state.rs:1015-1031 | True exactly when the node prevoted for another propose in a round after its lock. |
| NodeHandlerModel.NodeHandler.HandlePrecommit | dep/exonum/src/node/consensus.rs:412-442 | The precommit is among the voters; on a majority the block of a complete propose is appended, a different result of its execution panics, and an unknown propose is remembered with the majority; otherwise nothing but the count changes. |
| NodeHandlerModel.NodeHandler.HasMajorityPrecommits | dep/exonum/src/node/consensus.rs:335-380 | On top of the chain the block with the transactions and the validator of a complete propose, its height, the last hash and the resulting state, or a panic when that is not the agreed block; nothing changes while transactions are missing, and the majority is remembered when the propose is unknown. |
| NodeHandlerModel.NodeHandler.CommitBlock | dep/exonum/src/node/consensus.rs:446-512 | The chain grows by the block, the node starts the next height in round one without lock, votes or proposes, and the transactions of the block leave the pool. |
| NodeHandlerModel.NodeHandler.Commit | dep/exonum/src/node/consensus.rs:446-512 | The chain holds the block on top of the old one, and every message that was waiting is settled or waits because its time has not come. |
| NodeHandlerModel.NodeHandler.HandleTx | dep/exonum/src/node/consensus.rs:517-561 | A new valid transaction enters a pool that has room or whose proposes need it and no propose waits for it any more, unless the node leaves the height; an unlocked validator that has not voted prevotes for a propose that it completes; one that completes no propose does nothing else; any other changes nothing; prevotes for another height only follow a commit in the same call. |
| NodeHandlerModel.NodeHandler.AddTransaction | dep/exonum/src/node/state.rs:760-794 | No propose waits for the transaction any more, exactly the complete proposes are returned, and a full pool takes it only when it is needed. |
| NodeHandlerModel.NodeHandler.HandleNewRound | dep/exonum/src/node/consensus.rs:597-610 | A jump to a later round of this height is made, with a prevote for the lock first and, without lock and waiting messages, with no other change; anything else is ignored. |
| NodeHandlerModel.NodeHandler.ProcessNewRound | dep/exonum/src/node/consensus.rs:613-631 | The node reaches the new round and, when it is locked, first of all prevotes for its lock there, with the round of the lock; no waiting message is lost and none keeps waiting whose round has come. |
| NodeHandlerModel.NodeHandler.HandleQueued | dep/exonum/src/node/consensus.rs:626-631 | Every waiting message is settled afterwards, or waits again because its height or round has not come. |
| NodeHandlerModel.NodeHandler.HandleRoundTimeout | dep/exonum/src/node/consensus.rs:634-651 | The timeout of the current round of this height leads to the next one, any other is ignored. |
| NodeHandlerModel.NodeHandler.HandleProposeTimeout | dep/exonum/src/node/consensus.rs:654-708 | A validator without lock or prevote sends a propose on its last block with as many different pool transactions as the limit allows and a prevote for it, and locks if that is a majority; otherwise nothing happens. |
| NodeHandlerModel.NodeHandler.PickTransactions | dep/exonum/src/node/consensus.rs:672-690 | As many different transactions of the pool as the limit allows. |
| NodeHandlerModel.NodeHandler.BroadcastPrevote | dep/exonum/src/node/consensus.rs:870-887 | The own prevote is counted and sent, and the result says whether it completes a majority. |
| NodeHandlerModel.NodeHandler.Execute | dep/exonum/src/node/consensus.rs:792-815 | The block stored under the hash has the validator and the transactions of the propose, the height and the last hash of the chain, and the hash of the state that executing them gives. |
| NodeBooks.OneBlockLonger | dep/exonum/src/node/consensus.rs:446-512 | Appending a stored block keeps every block linked and no transaction in two blocks, and what waits in the pool is in none. |
| SnappyUncompress.RoundTrip | dep/exonum_librocksdb-sys/snappy/snappy.cc:847-929 | Compressing and then decompressing gives every input shorter than 2^32 bytes back, for a flat or a scattered output and every way both sources are cut into regions, the compressed one into regions below 2^32 bytes; a longer input is refused. |
| SnappyLong.UncompressWithin | dep/exonum_librocksdb-sys/snappy/snappy.cc:816-840 | For a source whose bytes behind the length are one region: within any number of steps nothing is accepted but what is valid, fits and has fewer than 2^32 bytes behind the length, and that is accepted when the number of steps is large enough. |
| SnappyLong.ValidateWithin | dep/exonum_librocksdb-sys/snappy/snappy.cc:1238-1247 | A flat buffer is accepted exactly when it is valid and fewer than 2^32 bytes are behind its length. |
| SnappyLong.NeverAccepted | dep/exonum_librocksdb-sys/snappy/snappy.cc:1238-1247 | Two literals of 2^31 and 2^31 - 1 bytes are valid and not accepted after any number of steps. |
| SnappyLong.RoundTripWithin | dep/exonum_librocksdb-sys/snappy/snappy.cc:847-929 | Through a flat buffer an input comes back exactly when it has fewer than 2^32 bytes and so has what it is compressed to. |
| SnappyLong.NeverRestored | dep/exonum_librocksdb-sys/snappy/snappy.cc:847-929 | 2^32 - 1 bytes that do not compress and do not come back after any number of steps. |
| SnappyLong.MarkedIncompressible | dep/exonum_librocksdb-sys/snappy/snappy.cc:412-539 | An input of any length in which no block holds four bytes twice. |
| SnappyDecompress.Decompressor.DecompressWithin | dep/exonum_librocksdb-sys/snappy/snappy.cc:656-754 | Step by step: with regions below 2^32 bytes it ends after a bounded number of steps with the right result, with a single longer region it never comes to the end of the input. |
| SnappyDecompress.Decompressor.StitchOn | dep/exonum_librocksdb-sys/snappy/snappy.cc:786-799 | Adds bytes of the next region to the tag; at a single region of 2^32 bytes or more it changes nothing and goes on. |
| SnappyCompress.Compress | dep/exonum_librocksdb-sys/snappy/snappy.cc:847-929 | The output stays inside MaxCompressedLength and stands for the input when that is shorter than 2^32 bytes, and for nothing otherwise; an input without repetitions inside its blocks grows with every block, one of a single byte all over shrinks to about three bytes for every 64. |
| SnappyUncompress.InternalUncompress | dep/exonum_librocksdb-sys/snappy/snappy.cc:816-840 | The data is accepted exactly when the format gives it a meaning (and, for a list of buffers, when that fits), for every chunking of the source into regions below 2^32 bytes and every writer, and the output is that meaning. |
| SnappyUncompress.ShortIsCountable | dep/exonum_librocksdb-sys/snappy/snappy.cc:596-602 | A source below 2^32 bytes, or one cut into regions below that, meets the condition of the decoder. |
| SnappyDecompress.Decompressor.NextRegion | dep/exonum_librocksdb-sys/snappy/snappy.cc:759-772 | The window becomes the next region; the bytes to come stay the same exactly when its length fits 32 bits, and of a longer one the source will skip only the remainder. |
| SnappyUncompress.RawUncompress | dep/exonum_librocksdb-sys/snappy/snappy.cc:1183-1191 | Accepts exactly the valid data and leaves its meaning at the front of the buffer. |
| SnappyUncompress.IsValidCompressed | dep/exonum_librocksdb-sys/snappy/snappy.cc:1238-1247 | Accepts exactly the data that the decompressor accepts. |
| SnappyUncompress.RawUncompressToIOVec | dep/exonum_librocksdb-sys/snappy/snappy.cc:1097-1107 | Accepts exactly the valid data that fits the buffers together, empty ones and an empty list for empty data included; their concatenation then begins with the flat output. |
| SnappyUncompress.Uncompress | dep/exonum_librocksdb-sys/snappy/snappy.cc:1477-1505 | The sink receives the meaning of valid data whether or not it has a flat buffer; other data is refused. |
| SnappyDecompress.Decompressor.DecompressAllTags | dep/exonum_librocksdb-sys/snappy/snappy.cc:656-754 | At the end of the input the writer holds what the tags stand for; when it stops before, they stand for nothing or for more than fits. |
| SnappyDecompress.Decompressor.RefillTag | dep/exonum_librocksdb-sys/snappy/snappy.cc:759-814 | The bytes to come stay the same and the next tag, with the word read after it, lies inside the window or the scratch area; it fails exactly at the end of the data or inside a tag. |
| SnappyDecompress.Decompressor.AppendLiteral | dep/exonum_librocksdb-sys/snappy/snappy.cc:721-736 | A literal taken region by region is the literal of the whole stream; it fails only when the data ends or the output is full. |
| SnappyDecompress.Decompressor.LiteralLength | dep/exonum_librocksdb-sys/snappy/snappy.cc:703-719 | The masked word load gives the length of the tag and leaves the bytes after it. |
| SnappyDecompress.Decompressor.ReadCopy | dep/exonum_librocksdb-sys/snappy/snappy.cc:739-748 | Table lookup and masked word load give the offset and length of the tag and leave the bytes after it. |
| SnappyDecompress.MaskedLoad | dep/exonum_librocksdb-sys/snappy/snappy.cc:589-594 | The masked four-byte load is the value of the first bytes alone. |
| SnappyTable.TableIs | dep/exonum_librocksdb-sys/snappy/snappy-internal.h:183-216 | Each of the 256 table entries holds the length, the high offset bits and the number of further bytes that its tag byte encodes. |
| SnappyFormat.LongLengthMeans | dep/exonum_librocksdb-sys/snappy/snappy.cc:713-719 | The length of a long literal is one more than its bytes say, except for four bytes of 255, where the 32-bit sum wraps to zero. |
| SnappyFormat.ExpandAppend | dep/exonum_librocksdb-sys/snappy/format_description.txt:28-110 | A complete run of tags may be followed by more tags. |
| SnappyFormat.CopyBackUnique | dep/exonum_librocksdb-sys/snappy/format_description.txt:63-80 | A copy is the only extension of the output in which every new byte equals the one an offset before it. |
| SnappyWriters.ArrayWriter.Append | dep/exonum_librocksdb-sys/snappy/snappy.cc:1137-1146 | Accepted exactly when there is room, and then appended. |
| SnappyWriters.ArrayWriter.TryFastAppend | dep/exonum_librocksdb-sys/snappy/snappy.cc:1148-1159 | A short append with room to spare on both sides, or no change. |
| SnappyWriters.ArrayWriter.AppendFromSelf | dep/exonum_librocksdb-sys/snappy/snappy.cc:1161-1175 | Accepted exactly when the offset is inside the output and there is room, and then an overlapping copy. |
| SnappyWriters.Validator.AppendFromSelf | dep/exonum_librocksdb-sys/snappy/snappy.cc:1228-1234 | The verdict of the flat writer, computed from lengths alone. |
| SnappyIOVec.IOVecWriter.Append | dep/exonum_librocksdb-sys/snappy/snappy.cc:980-1008 | With enough room in the buffers, accepted exactly when the expected length allows it, and the bytes continue across buffers. |
| SnappyIOVec.IOVecWriter.AppendFromSelf | dep/exonum_librocksdb-sys/snappy/snappy.cc:1025-1092 | With enough room, an overlapping copy across buffers, accepted exactly as by the flat writer; without it the length check fails in the end. |
| SnappyIOVec.IOVecWriter.OutIsConcatenated | dep/exonum_librocksdb-sys/snappy/snappy.cc:938-975 | The concatenated buffers begin with the output. |
| SnappyScattered.ScatteredWriter.SlowAppend | dep/exonum_librocksdb-sys/snappy/snappy.cc:1371-1399 | Bytes continue in new blocks, all of the block size but the last; refused exactly when the expected length would be exceeded. |
| SnappyScattered.ScatteredWriter.SlowAppendFromSelf | dep/exonum_librocksdb-sys/snappy/snappy.cc:1402-1423 | A byte-by-byte copy found by shift and mask equals the overlapping copy of the whole output. |
| SnappyScattered.ScatteredWriter.Flush | dep/exonum_librocksdb-sys/snappy/snappy.cc:1441-1451 | The flushed blocks concatenate to the output. |
| SnappyWriter.Writer.AppendFromSelf | dep/exonum_librocksdb-sys/snappy/snappy.cc:546-594 | The one contract for copies that all four writers meet and the decompressor relies on. |
| SnappyCopy.IncrementalCopy | dep/exonum_librocksdb-sys/snappy/snappy.cc:139-220 | Pattern doubling and overlapping eight-byte moves leave what the byte-by-byte copy leaves, and change nothing outside the buffer limit. |
| SnappyCopy.IncrementalCopySlow | dep/exonum_librocksdb-sys/snappy/snappy.cc:128-134 | The byte-by-byte copy is the overlapping copy. |
| SnappyCopy.ExpandPattern | dep/exonum_librocksdb-sys/snappy/snappy.cc:178-193 | A pattern shorter than eight bytes is doubled to at least eight and continues with its period. |
| SnappyEmit.LiteralExpands | dep/exonum_librocksdb-sys/snappy/snappy.cc:224-267 | The bytes of a literal tag stand for the literal. |
| SnappyEmit.CopiesExpand | dep/exonum_librocksdb-sys/snappy/snappy.cc:291-316 | The copy tags of a long match stand for one copy of its whole length. |
| SnappyEmit.EmitLiteral | dep/exonum_librocksdb-sys/snappy/snappy.cc:224-267 | Writes the bytes of a literal tag; only a margin behind them is overwritten besides. |
| SnappyEmit.EmitCopy | dep/exonum_librocksdb-sys/snappy/snappy.cc:291-316 | Writes the bytes of the copy tags of a match. |
| SnappyFragment.CompressFragment | dep/exonum_librocksdb-sys/snappy/snappy.cc:412-539 | From a zeroed hash table, the bytes written stand for the block, stay within the bound and touch nothing outside the room of the block; where no four bytes occur twice they are a single literal, where all bytes are the same at most three for every 64 and twenty more. |
| SnappyFragment.ScanForMatch | dep/exonum_librocksdb-sys/snappy/snappy.cc:460-481 | A position it returns holds the same four bytes at an earlier position of the block; of the positions passed, the first 32 and some further ones, none repeats the last one with its hash, and the first is returned when it matches its entry. |
| SnappyFragment.EmitMatch | dep/exonum_librocksdb-sys/snappy/snappy.cc:500-519 | The copies of the longest match from the position on, which stand for the input up to its end. |
| SnappyFragment.EmitCopies | dep/exonum_librocksdb-sys/snappy/snappy.cc:489-527 | Copies as long as matches follow each other; a match that goes to the end of the block takes nothing but its copies, and otherwise the next position and the one before it are in the table. |
| SnappyFragment.FindMatchLength | dep/exonum_librocksdb-sys/snappy/snappy-internal.h:85-158 | The length of the longest common continuation, eight bytes at a time. |
| Bits.FirstByteDiffers | dep/exonum_librocksdb-sys/snappy/snappy-internal.h:98-120 | The lowest set bit of the exclusive or of two little-endian words, divided by eight, is the first byte in which they differ. |
| SnappyFragment.TableSize | dep/exonum_librocksdb-sys/snappy/snappy.cc:330-354 | The smallest power of two from 256 on that is at least the input size, but at most 16384. |
| SnappySource.Parse32WithLimit | dep/exonum_librocksdb-sys/snappy/snappy-stubs-internal.h:438-458 | The value of the length prefix and its bytes, or failure, exactly as the format says. |
| SnappySource.ReadUncompressedLength | dep/exonum_librocksdb-sys/snappy/snappy.cc:634-655 | The same value, bytes and failures, read byte by byte from a chunked source. |
| SnappySource.Encode32 | dep/exonum_librocksdb-sys/snappy/snappy-stubs-internal.h:460-486 | The bytes of the prefix, and nothing behind them changes. |
| SnappySource.ParseEncoded | dep/exonum_librocksdb-sys/snappy/snappy-stubs-internal.h:438-486 | Parsing inverts encoding, whatever follows. |
| EncodingRoundTrip.FieldsRoundTrip | dep/exonum/src/encoding/segments.rs:53-113 | Fields of any types, nested lists, structures and messages included, written into any buffer below 2^32 bytes are accepted up to its end and read back; the rest of the buffer stays. |
| EncodingRoundTrip.StructRoundTrip | dep/exonum/src/encoding/spec.rs:74-162 | A new structure is well formed, every getter returns its argument, and the structure can be a field itself. |
| EncodingMessages.MessageRoundTrip | dep/exonum/src/messages/spec.rs:95-239 | A new message is accepted by from_raw, its fields read back, its header says its length and its signature is kept. |
| EncodingMessages.MessageOnWire | dep/exonum/src/messages/raw.rs:190-256 | The first ten bytes of a message are network, version, message type, service and whole length, little-endian, and the last sixty-four its signature. |
| EncodingCanonical.CheckSound | dep/exonum/src/encoding/segments.rs:70-113 | An accepted field has its segments where the last one ended, without gap or overlap; reading it stays inside the buffer and fails only on a time that cannot be represented; writing it again gives the same bytes exactly when every time is normal. |
| EncodingCanonical.TextAccepted | dep/exonum/src/encoding/segments.rs:135-151 | A segment of text is accepted exactly when its bytes are the encoding of some sequence of characters, and refused with its position otherwise. |
| Utf8.ValidUtf8Exactly | dep/exonum/src/encoding/segments.rs:144 | The bytes that pass are exactly the concatenated encodings of character numbers up to 0x10FFFF without the surrogates, as section 3 of RFC 3629 defines them. |
| Utf8.EncodeAllInjective | dep/exonum/src/encoding/segments.rs:144 | Different texts have different bytes. |
| EncodingCanonical.FixedAccepted | dep/exonum/src/encoding/fields.rs:170-342 | Of the fields in place only a truth value other than zero and one is refused, with its position and value. |
| EncodingCanonical.SegmentRefused | dep/exonum/src/encoding/segments.rs:70-113 | A segment that starts before or behind the end of the last one, or ends outside the buffer, is refused with the error that says so. |
| EncodingCanonical.RawAccepted | dep/exonum/src/encoding/segments.rs:174-200 | The bytes of a message inside a message are accepted exactly when they have a header that says their number; the errors tell a missing header from a wrong number. |
| EncodingCanonical.CheckAllSound | dep/exonum/src/encoding/segments.rs:239-253 | The same for a list of fields or items one after another. |
| EncodingMessages.MessageCanonical | dep/exonum/src/messages/spec.rs:96-138 | An accepted message is the one its fields make, byte for byte, exactly when its header says its length and every time is normal. |
| EncodingMessages.WrongLengthIsAccepted | dep/exonum/src/messages/spec.rs:96-138 | A message without fields is accepted whatever length its header says. |
| EncodingMessages.StructCanonical | dep/exonum/src/encoding/spec.rs:92-119 | An accepted structure is the one its fields make exactly when nothing is left behind its last segment and every time is normal. |
| EncodingMessages.SlackIsAccepted | dep/exonum/src/encoding/spec.rs:92-119 | A structure with a byte too many is accepted. |
| EncodingMessages.NewWithSignature | dep/exonum/src/messages/spec.rs:212-227 | Writing the fields one by one into a message and appending the signature gives the bytes of the message. |
| EncodingMessages.MessageWriter.AppendSignature | dep/exonum/src/messages/raw.rs:250-256 | The header gets the length of the whole message and the signature follows the body. |
| EncodingLayout.WriteIsLayout | dep/exonum/src/encoding/segments.rs:59-68 | Writing in place puts the header at its place and the segments at the end, and touches nothing else. |
| EncodingLists.ExtendItems | dep/exonum/src/encoding/segments.rs:229-237 | The loop over the items appends the headers of all items and then their segments in order. |
| EncodingLists.CheckItems | dep/exonum/src/encoding/segments.rs:239-253 | The loop checks the items in order, each behind the segments of the ones before. |
| EncodingLists.ReadItems | dep/exonum/src/encoding/segments.rs:218-227 | The loop reads the items in order or fails with the first that cannot be read. |
| EncodingTypes.FixedRoundTrip | dep/exonum/src/encoding/fields.rs:170-342 | Every value of a fixed-size type is read back as written. |
| EncodingTypes.FixedOnWire | dep/exonum/src/encoding/fields.rs:170-342 | Every byte on the wire: numbers little-endian, signed ones modulo two to the power of their width, a time as seconds and nanoseconds, an address as octets and port. |
| EncodingTypes.BitsOnWire | dep/exonum/src/encoding/segments.rs:256-286 | Bit i of a vector is in byte i / 8, the first bits the highest. |
| EncodingTypes.FixedCanonical | dep/exonum/src/encoding/fields.rs:268-302 | Writing what was read gives the same bytes, except for a truth value above one and a time with a second or more of nanoseconds. |
| EncodingTypes.LateTime | dep/exonum/src/encoding/fields.rs:268-302 | No seconds and 10^9 nanoseconds are read as one second and not written back as they were. |
| EncodingTypes.BitsRoundTrip | dep/exonum/src/encoding/segments.rs:256-286 | A bit vector is read back exactly when its length is a multiple of eight. |
| Codec.SplitAppend | dep/exonum/src/events/codec.rs:40-72 | Splitting a stream into messages does not depend on where the stream is cut. |
| Codec.SentAsReceived | dep/exonum/src/events/codec.rs:40-82 | Messages sent one after another are received as sent exactly when each says its own length within the limit. |
| Codec.JoinedSplit | dep/exonum/src/events/codec.rs:40-72 | Messages and rest are the stream, every message is well framed, and decoding fails exactly when the next header announces a refused length. |
| Codec.NewMessageIsFramed | dep/exonum/src/messages/raw.rs:250-256 | A new message is well framed exactly when it is not longer than the limit. |
| Codec.MessagesCodec.Decode | dep/exonum/src/events/codec.rs:40-72 | Takes exactly the first complete message off the buffer, leaves the buffer alone otherwise, and fails exactly on a refused length. |
| Codec.MessagesCodec.Receive | dep/exonum/src/events/codec.rs:40-72 | Any pieces in which a stream arrives give the messages of the whole stream, up to the first refused one. |
| Chain.RunIsValid | dep/exonum/src/blockchain/mod.rs:236-384 | Along every run of commits the blocks are linked and stored under their hashes, every transaction has its last place as its location, the configurations are linked, and each commit adds one block that no later commit changes; the data of the services after a commit are what executing its transactions on a plain database gives, and its block holds the hash of that. |
| Chain.NextBlockKeeps | dep/exonum/src/blockchain/mod.rs:236-341 | The next block keeps all of that, holds exactly the given transactions, whether they succeed or panic, and stores their contents beside the older ones. |
| Chain.NextBlockBuilds | dep/exonum/src/blockchain/mod.rs:236-341 | The patch shows the data and tables of a database on which the transactions were executed one after another, and the block on top names proposer, height, number and list of transactions, the last block and the hash of that database; there is none exactly when the storage fails. |
| Chain.ExecutePlays | dep/exonum/src/blockchain/mod.rs:245-283 | Executing transactions on a fork, with patches and change log, shows what executing them on a plain database gives, failures included. |
| Chain.PlayedWrites | dep/exonum/src/blockchain/mod.rs:245-283 | When every panic leaves what it forgets as it was before the block, the data after a block are those before it with the writes of the transactions that end well, and no others, done in order. |
| Chain.UndoableIsHarmless | dep/exonum/src/blockchain/mod.rs:252-271 | A panic after which the fork can restore its patch is of that kind. |
| Chain.DoneMeans | dep/exonum/src/blockchain/mod.rs:252-271 | A transaction that ends well has made all its writes and scheduled all its configurations in order, and met no failure. |
| Chain.FailedMeans | dep/exonum/src/blockchain/mod.rs:252-271 | One that does not stops at a failure, or at a configuration that does not fit, after a part that ends well; failures of the storage are told apart. |
| Chain.RecordKeeps | dep/exonum/src/blockchain/mod.rs:273-277 | Recording a transaction makes its location the last place where it occurs and disturbs no other. |
| Chain.PanicLeavesNothing | dep/exonum/src/blockchain/mod.rs:252-271 | Of a transaction that panics nothing but its record is left exactly when none of its clearings met an entry of the block so far that it had not logged before. |
| Chain.PanicDestroys | dep/exonum/src/blockchain/mod.rs:252-271 | A transaction that clears the write of an earlier one and panics destroys it. |
| Chain.RunKeeps | dep/exonum/src/blockchain/mod.rs:252-271 | A transaction adds linked configurations and changes nothing of the chain. |
| Chain.Blockchain.CreatePatch | dep/exonum/src/blockchain/mod.rs:236-341 | The loop over the transactions, on a fork with checkpoint, commit and rollback, gives a patch that shows what executing them on a plain database gives, with the block that names them, the last block and the hash of the new state; the database stays as it is, and there is no patch when the storage fails. |
| Chain.Blockchain.Execute | dep/exonum/src/blockchain/mod.rs:252-271 | A transaction writes to the fork in order up to its end or its failure. |
| Chain.Blockchain.Commit | dep/exonum/src/blockchain/mod.rs:347-384 | The patch with the precommits of its block becomes the database, the patch of the services is merged, and the chain stays valid. |
| Chain.Blockchain.CommitNext | dep/exonum/src/blockchain/mod.rs:236-384 | Creating and committing the next block: a key then reads what the last write to it says, among those of the transactions that end well, and the block holds the hash of the new state. |
| Chain.Blockchain.CreateGenesisBlock | dep/exonum/src/blockchain/mod.rs:173-211 | A valid chain of one block whose configuration is in force from the start, with the initial writes done in order, or no change when there is a block; it panics exactly when only the configuration got in before. |
| Chain.Blockchain.MergeConfiguration | dep/exonum/src/blockchain/mod.rs:173-205 | The first merge leaves a configuration in force and no block; it returns early when there is a block and panics when there is only a configuration. |
| Chain.InterruptedGenesis | dep/exonum/src/blockchain/mod.rs:173-211 | After the first merge alone a second attempt to create the genesis block panics. |
| Chain.CommitConfiguration | dep/exonum/src/blockchain/schema.rs:380-414 | Accepted exactly when it names the last one and starts later, or is the first; it then extends the linked list. |
| Chain.CommittedInForce | dep/exonum/src/blockchain/schema.rs:380-414 | A committed configuration comes into force at its height, and at lower heights the one in force stays the same. |
| Chain.FindConfigurationIndex | dep/exonum/src/blockchain/schema.rs:278-290 | The last configuration that has started at the height. |
| Chain.ConfigurationByHeight | dep/exonum/src/blockchain/schema.rs:228-239 | The configuration in force at the height, whenever one has started. |
| Chain.InForceUnique | dep/exonum/src/blockchain/schema.rs:228-239 | At most one configuration is in force at a height. |
| Chain.FollowingConfiguration | dep/exonum/src/blockchain/schema.rs:191-205 | The configuration that starts next, if one is scheduled. |
| Chain.PreviousConfiguration | dep/exonum/src/blockchain/schema.rs:208-225 | The configuration that the one in force names as its predecessor. |
| Fork.Fork.Attempt | dep/exonum/src/storage/db.rs:353-458 | Whatever is stored, removed or cleared between a checkpoint and a rollback, the patch is as before exactly when no clearing meets an entry of it that no write before that clearing logged. |
| Fork.Fork.Rollback | dep/exonum/src/storage/db.rs:380-393 | The patch becomes the one at the checkpoint without the entries that a clearing dropped unlogged since; it is the old one exactly when there are none. |
| Fork.ForgottenMore | dep/exonum/src/storage/db.rs:429-458 | Which entries one more write takes away from a later rollback. |
| Fork.UndoableExactly | dep/exonum/src/storage/db.rs:380-458 | Nothing is lost exactly when no clearing meets an unlogged entry. |
| Fork.ClearedTooMuch | dep/exonum/src/storage/db.rs:427-458 | A key of the snapshot behind the prefix is deleted. |
| Fork.Fork.RemoveByPrefix | dep/exonum/src/storage/db.rs:429-458 | What is left to see, and exactly which entries a later rollback will miss. |
| Fork.ClearedExactly | dep/exonum/src/storage/db.rs:427-458 | Clearing removes only keys under the prefix exactly when no visible key of the snapshot follows them in the family. |
| Fork.LostChange | dep/exonum/src/storage/db.rs:380-458 | A value that can be read before a checkpoint and no longer after a clearing and a rollback. |
| Fork.UndoWithout | dep/exonum/src/storage/db.rs:380-393 | Undoing restores the logged keys only. |
| Fork.Fork.Put | dep/exonum/src/storage/db.rs:396-409 | The key has the value, everything else looks as before, and a rollback is prepared. |
| Fork.Fork.Merge | dep/exonum/src/storage/db.rs:478-492 | Merging a patch into a fork shows what applying both patches one after the other gives. |
| Fork.AppliedShows | dep/exonum/src/storage/db.rs:396-458 | A patch that takes up stores, removals and clearings shows the data with these done to them in order. |
| Fork.LastWriteIsRead | dep/exonum/src/storage/db.rs:396-458 | The last write that touches a key decides what is read: its value, or nothing. |
| Fork.UntouchedStays | dep/exonum/src/storage/db.rs:396-458 | What no write touches stays as it was. |
| Fork.RevertedExactly | dep/exonum/src/storage/db.rs:380-393 | A rollback leaves the data as they were exactly when the keys that it forgets are as in the snapshot. |
| Fork.NotBeforeExactly | dep/exonum/src/storage/db.rs:427-458 | An iteration from a prefix passes exactly the keys that begin with it or are greater at the first byte that differs. |
| Decimal.Mul | dmbc/src/decimal.rs:78-93 | The integer part of the product with the fraction, cut to 64 bits, with a sum that never exceeds 128 bits. |
| Decimal.MulShrinks | dmbc/src/decimal.rs:78-93 | What is returned is below a positive factor exactly when the places spell less than one, which decimal places always do, or the product exceeds 64 bits and is cut. |
| Decimal.NotShrinking | dmbc/src/decimal.rs:78-93 | A fraction with the single place ten gives every number back. |
| Decimal.CutShrinks | dmbc/src/decimal.rs:78-93 | One and a half times the largest number is returned as less than it. |
| Decimal.FromDigits | dmbc/src/decimal.rs:25-40 | The packed word from which the low four bits of every digit are read back, and the digits themselves exactly when all are below sixteen. |
| Decimal.ToDigits | dmbc/src/decimal.rs:43-49 | The digits that the word is packed from. |
| Decimal.SetDigitMeans | dmbc/src/decimal.rs:60-66 | The place gets the low four bits of the digit and the place above it gains the high four, but the place is the one counted from the other end: a decimal digit that was set is read exactly when it was there before. |
| Decimal.OrNumber | dmbc/src/decimal.rs:60-66 | The or of two packed words, place by place. |
| Decimal.ParseText | dmbc/src/decimal.rs:97-140 | Reading the printed form returns the fraction exactly when all places are decimal. |
| Decimal.TextParse | dmbc/src/decimal.rs:97-140 | Printing what was read gives the text with the leading zero and the missing places. |
| Decimal.FromStr | dmbc/src/decimal.rs:124-140 | Up to sixteen digits are accepted, a seventeenth digit panics, anything else is an error. |
| Decimal.SeventeenDigits | dmbc/src/decimal.rs:124-140 | Seventeen digits panic. |
| Timeout.AfterBounds | dep/exonum/src/node/timeout_adjuster.rs:172-187 | Any sequence of loads, each at most the limit or over it by what the speed makes up for, keeps the timeout between minimum and maximum; empty blocks close the distance to the maximum by the same factor each time. |
| Timeout.NextBounds | dep/exonum/src/node/timeout_adjuster.rs:172-187 | For every load one adjustment does not lower the timeout below the optimal load, does not raise it from there on, and closes on the bound at empty and full blocks; it stays in bounds exactly when the timeout is minimal already or the load is not too far over the limit for the speed. |
| Timeout.NextMoves | dep/exonum/src/node/timeout_adjuster.rs:172-187 | The same step for every load and every timeout before it, in bounds or not, without a division. |
| Timeout.SteadyToLimit | dep/exonum/src/node/timeout_adjuster.rs:172-187 | No load up to the limit is too far. |
| Timeout.BelowMinimum | dep/exonum/src/node/timeout_adjuster.rs:172-187 | A block three times over the limit takes the timeout below the minimum. |
| Timeout.UndefinedExactly | dep/exonum/src/blockchain/config.rs:127-153 | Of the accepted settings exactly a limit of no transactions, and an optimal load of one with a block that is full, divide by zero. |
| Timeout.UndefinedSettings | dep/exonum/src/blockchain/config.rs:127-153 | Settings of both kinds that are accepted. |
| Timeout.MovingAverage.AdjustTimeout | dep/exonum/src/node/timeout_adjuster.rs:172-187 | The timeout moves by exactly the part of the way to the maximum that the free part of the load and the speed give, or of the way to the minimum that the excess and the speed give; it is in bounds exactly under that condition, and what is returned is the nearest whole number, half away from zero. |

## Left out

- NetworkProgress.CommitAll: progress while votes of faulty validators arrive as well, or after a lock in an earlier round; the missing validators are silent here and messages arrive in the order of the phases.
- The scheduling of round jumps (a jump to any later round may happen), timers, and restart after a
  crash.
- Requests for missing proposes, transactions, prevotes and blocks, peer exchange and the node
  status: they decide when messages arrive, not what is done with them.
- `handle_incoming_tx`, which adds a local transaction and broadcasts it.
- Cryptography: hashes are injective, signatures cannot be forged.
- NodeHandlerModel.NodeHandler.AddTransaction: transactions are their identifiers; their contents and execution are in `Chain`.
- The state of a node is a value in one field of the handler, so aliasing inside it is not modelled.
- SnappyUncompress.InternalUncompress: sources with a region of 2^32 bytes or more behind the length, on which the decoder need not end; a single such region is covered by `SnappyLong.UncompressWithin`, several regions of which one is too long are not.
- SnappyUncompress.RawUncompressToIOVec: an empty list of buffers for data that announces bytes, on which the code reads past the list.
- SnappyUncompress.Uncompress: what the sink receives from data that is refused.
- SnappyWriters.ArrayWriter.Append: pointers are indices into one array; `size_t` does not overflow.
- Machine endianness, unaligned loads and prefetching of Snappy; the hash table entries are integers, not 16-bit words.
- EncodingRoundTrip.FieldsRoundTrip: buffers of 2^32 bytes or more, whose offsets are cut to 32 bits.
- IPv6 addresses and times before 1970, which the encoder rejects with a panic; floating-point fields; JSON.
- Chain.Blockchain.CreatePatch: tables are maps and sequences; Merkle trees and the state hash are a parameter.  A transaction acts by storing, removing, clearing, scheduling a configuration or failing; its service keeps to its own column families, so the tables of the chain, which nothing clears, are restored by value.
- Chain.Blockchain.Commit: the patch is made for the current tables; `handle_commit` of services is not called.
- Iteration over a fork, and the order in which a clearing visits keys.
- Timeout.NextBounds: exact arithmetic instead of floating point; what division by zero gives there.
- Timeout.MovingAverage.AdjustTimeout: the conversion of a negative rounded timeout to an unsigned number.
- The wallet, asset and fee services, HTTP interfaces, networking and configuration files.
