/**
 The consensus part of the node handler, method by method.  Each handler is proved to act
 only through the atomic actions of `ConsensusModel`: the ghost field `actions` lists the
 actions taken so far, and `Valid()` says that replaying them from the initial state gives
 the present state and exactly the votes that were broadcast.

 A panic sets `halted`; the node does nothing after it.
 */
module NodeHandlerModel {
  import opened Wrappers
  import opened ConsensusHistory
  import opened ConsensusModel
  import opened HandlerSteps
  import opened NodeBooks

  /** Whom a message is sent to, who claims to send it, and whose signature it carries. */
  datatype Envelope = Envelope(recipient: Key, sender: Key, signer: Key)

  /** What a decision starts from. */
  datatype Moment = Moment(
    state: NodeState,
    sent: seq<Message>,
    clock: int,
    transactions: set<TxId>,
    unknownProposes: Unknown)

  /** Waiting messages have been received, and are of the next height at most. */
  ghost predicate Expected(queued: seq<Message>, received: set<Message>, height: nat) {
    forall m | m in queued :: m in received && MessageHeight(m) <= height + 1
  }

  lemma ExpectedLater(queued: seq<Message>, received: set<Message>, height: nat, height': nat)
    requires Expected(queued, received, height) && height <= height'
    ensures Expected(queued, received, height')
  {
  }

  lemma ExpectedMore(queued: seq<Message>, received: set<Message>, height: nat, m: Message)
    requires Expected(queued, received, height) && m in received && MessageHeight(m) <= height + 1
    ensures Expected(queued + [m], received, height)
  {
  }

  class NodeHandler {
    const net: Net
    const key: Key
    const verifyTx: TxId -> bool
    const txPoolCapacity: nat
    const txsBlockLimit: nat
    // The peers on the whitelist, if there is one.
    const whitelist: Option<set<Key>>

    var clock: int
    var validatorId: Option<nat>
    var state: NodeState
    var proposes: map<Hash, ProposeState>
    var blocks: map<Hash, Block>
    var unknownProposes: Unknown
    var transactions: set<TxId>
    var queued: seq<Message>

    // Everything broadcast so far.
    var sent: seq<Message>
    var sentProposes: seq<Propose>

    // The actions taken, the states they led through and the messages handed in so far.
    ghost var actions: seq<Action>
    ghost var history: seq<Effect>
    ghost var received: set<Message>
    // The consensus messages that came to the running node no more than one height early.
    ghost var delivered: seq<Message>

    ghost predicate Traced()
      reads this
    {
      && Recorded(net, key, history, actions, received)
      && |history| == |actions| + 1 && history[|actions|] == Effect(state, sent)
    }

    ghost function TheBooks(): Books
      reads this
    {
      Books(state.chain, state.round, state.certs, proposes, blocks, unknownProposes, transactions)
    }

    ghost predicate Tables()
      reads this
    {
      && Expected(queued, received, |state.chain|)
      && validatorId == ValidatorId(net, state)
      && state.key == key
      && proposes.Keys == state.proposes
      && Consistent(net, TheBooks())
      && (state.lockedPropose.None? <==> state.lockedRound == 0)
      && (state.lockedPropose.Some? ==> state.lockedPropose.value in proposes)
    }

    ghost predicate Valid()
      reads this
    {
      Traced() && Tables()
    }

    /** What every method keeps: the past is not rewritten, and within a height proposes are
        never forgotten. */
    twostate predicate Advanced()
      reads this
    {
      && old(actions) <= actions && old(sent) <= sent && old(sentProposes) <= sentProposes
      && received == old(received) && delivered == old(delivered)
      && old(state).chain <= state.chain && old(state).certs <= state.certs
      && (state.chain == old(state).chain ==>
            old(state).proposes <= state.proposes && old(state).round <= state.round
            && old(state).lockedRound <= state.lockedRound)
    }

    /** Every prevote sent since is for a propose of its own height. */
    twostate predicate Timely()
      reads this
    {
      Late(sent) == Late(old(sent))
    }

    /** No message leaves the queue before it is settled, and if only early messages wait then so it
        remains. */
    twostate predicate QueueHeld()
      reads this
    {
      Held(net, |old(state).chain|, old(state).round, old(queued), state, queued)
    }

    /** Moreover the queue gets no longer. */
    twostate predicate QueueKept()
      reads this
    {
      |queued| <= |old(queued)| && QueueHeld()
    }

    /** Every message that was delivered waits or is settled, and only early messages wait. */
    ghost predicate NothingLost()
      reads this
    {
      Kept(net, state, delivered, queued) && OnlyEarly(|state.chain|, state.round, queued)
    }

    /** The node runs and stands at the beginning of a height, with no message waiting. */
    ghost predicate AtStart()
      reads this
    {
      && !state.halted && state.round == 1 && state.lockedRound == 0 && state.proposes == {} && queued == []
      && state.prevotes == map[] && state.precommits == map[]
      && state.ourPrevotes == map[] && state.ourPrecommits == map[]
    }

    ghost function Now(): Moment
      reads this
    {
      Moment(state, sent, clock, transactions, unknownProposes)
    }

    /** The node has appended the block to the chain, taken its transactions out of the pool and
        stands at the beginning of the next height. */
    ghost predicate Began(from: Moment, b: Block)
      reads this
    {
      && state.chain == from.state.chain + [b] && AtStart()
      && transactions == from.transactions - (set tx | tx in b.txs) && unknownProposes == from.unknownProposes
    }

    /** The node has committed one block and stands at the beginning of the next height. */
    twostate predicate Moved()
      reads this
    {
      |state.chain| == |old(state).chain| + 1 && AtStart() && unknownProposes == old(unknownProposes)
    }

    /** The node panicked, or it committed a block and left the height. */
    twostate predicate Left()
      reads this
    {
      state.halted || |old(state).chain| < |state.chain|
    }

    /** The pool, the known proposes and what they wait for are as before; a propose may have
        been executed. */
    twostate predicate SameTables()
      reads this
    {
      transactions == old(transactions) && SameProposes(old(proposes), proposes)
    }

    /** Nothing that counts has changed. */
    twostate predicate Untouched()
      reads this
    {
      && state == old(state) && sent == old(sent) && sentProposes == old(sentProposes) && queued == old(queued)
      && proposes == old(proposes) && unknownProposes == old(unknownProposes) && transactions == old(transactions)
    }

    /** The node stays at its height, locked on the propose in this round or a later one. */
    twostate predicate LockedAt(hash: Hash, r: nat)
      reads this
    {
      !state.halted && state.chain == old(state).chain && state.lockedPropose == Some(hash) && r <= state.lockedRound
    }

    constructor (net: Net, key: Key, verifyTx: TxId -> bool, txPoolCapacity: nat, txsBlockLimit: nat,
        whitelist: Option<set<Key>>)
      ensures Valid() && state == InitialNode(net, key) && this.net == net && this.key == key
      ensures queued == [] && received == {} && delivered == [] && actions == [] && sent == []
      ensures proposes == map[] && unknownProposes == map[] && transactions == {}
      ensures this.verifyTx == verifyTx && this.txPoolCapacity == txPoolCapacity && this.txsBlockLimit == txsBlockLimit
    {
      this.net, this.key, this.verifyTx := net, key, verifyTx;
      this.txPoolCapacity, this.txsBlockLimit, this.whitelist := txPoolCapacity, txsBlockLimit, whitelist;
      clock, state := 0, InitialNode(net, key);
      validatorId := FindValidator(net.validators(net.genesis), key);
      proposes, blocks, unknownProposes := map[], map[], map[];
      transactions, queued := {}, [];
      sent, sentProposes, actions, received, delivered := [], [], [], {}, [];
      history := [Effect(InitialNode(net, key), [])];
    }

    // ----- The atomic actions -----

    /** The state and the outbox move by action `a`. */
    ghost method Record(a: Action, before: NodeState, sentBefore: seq<Message>)
      requires Recorded(net, key, history, actions, received)
      requires |history| == |actions| + 1 && history[|actions|] == Effect(before, sentBefore)
      requires Inputs(a) <= received
      requires IsStep(net, before, a, state, sentBefore, sent)
      modifies this`actions, this`history
      ensures Traced() && actions == old(actions) + [a]
    {
      HistoryExtends(net, key, history, actions, a, state, sent);
      history := history + [Effect(state, sent)];
      actions := actions + [a];
    }

    /** Since an earlier moment, of which the handler had the given history, its state has grown. */
    lemma HasGrown(history0: seq<Effect>, actions0: seq<Action>, received0: set<Message>)
      requires Traced() && Recorded(net, key, history0, actions0, received0) && actions0 <= actions
      requires |history0| == |actions0| + 1
      ensures Grows(history0[|actions0|].state, state) && history0[|actions0|].sent <= sent
    {
      hide IsHistory, InputsKnown, Grows;
      LaterGrows(net, key, history0, actions0, history, actions);
    }

    /** The history up to now. */
    lemma HistoryNow()
      requires Valid()
      ensures Recorded(net, key, history, actions, received)
      ensures |history| == |actions| + 1 && history[|actions|] == Effect(state, sent)
    {
      hide Recorded, Consistent, Expected;
    }

    /** Some of what the tables say. */
    lemma Basics()
      requires Valid()
      ensures validatorId == ValidatorId(net, state) && (state.lockedPropose.None? <==> state.lockedRound == 0)
      ensures proposes.Keys == state.proposes
    {
      hide Recorded, Consistent, Expected;
    }

    /** A panic. */
    method Panic()
      requires Valid() && !state.halted
      modifies this`state, this`actions, this`history
      ensures Valid() && Advanced() && Timely() && QueueKept() && state == old(state).(halted := true)
    {
      hide Recorded, Late, Consistent, Expected, Held;
      state := state.(halted := true);
      Record(Action.Halt, old(state), sent);
      HeldSame(net, state, queued);
    }

    /** `add_propose`. */
    method LearnPropose(p: Propose, unknown: set<TxId>)
      requires Valid() && !state.halted
      requires p.height == |state.chain| && p.round <= state.round && ProposeHash(p) !in proposes
      requires Unused(state.chain, p.txs)
      modifies this`state, this`actions, this`history, this`proposes
      ensures Valid() && Advanced() && Timely()
      ensures state == old(state).(proposes := old(state).proposes + {ProposeHash(p)})
      ensures proposes == old(proposes)[ProposeHash(p) := ProposeState(p, unknown, None)]
    {
      hide Recorded, Late, Consistent, Expected;
      MoreProposes(net, TheBooks(), p, unknown);
      proposes := proposes[ProposeHash(p) := ProposeState(p, unknown, None)];
      state := state.(proposes := state.proposes + {ProposeHash(p)});
      Record(Action.LearnPropose(p), old(state), sent);
    }

    predicate Majority(voters: set<nat>)
      reads this
    {
      HasMajority(net, state, voters)
    }

    /** `add_prevote` for a message from the network. */
    method AddPrevoteMessage(m: Message) returns (hasMajority: bool)
      requires Valid() && !state.halted && m in received
      requires m.Prevote? && Authentic(net, state, m)
      modifies this`state, this`actions, this`history
      ensures Valid() && Advanced() && Timely()
      ensures state == AddPrevote(net, old(state), m)
      ensures hasMajority == (!state.halted && Majority(Voters(state.prevotes, m.round, m.proposeHash)))
    {
      hide Recorded, Late, Consistent, Expected, IsStep, AddPrevote;
      PrevoteCounted(net, state, m);
      state := AddPrevote(net, state, m);
      VoteStep(net, old(state), m, sent);
      Record(Action.RecvPrevote(m), old(state), sent);
      hasMajority := !state.halted && Majority(Voters(state.prevotes, m.round, m.proposeHash));
    }

    /** `add_precommit` for a message from the network. */
    method AddPrecommitMessage(m: Message) returns (hasMajority: bool)
      requires Valid() && !state.halted && m in received
      requires m.Precommit? && Authentic(net, state, m)
      modifies this`state, this`actions, this`history
      ensures Valid() && Advanced() && Timely()
      ensures state == AddPrecommit(net, old(state), m)
      ensures hasMajority == (!state.halted && Majority(Voters(state.precommits, m.round, m.blockHash)))
      ensures hasMajority ==> (|state.chain|, m.round, m.blockHash) in state.certs
    {
      hide Recorded, Late, Consistent, Expected, IsStep, AddPrecommit;
      PrecommitCounted(net, state, m);
      MoreCerts(net, TheBooks(), AddPrecommit(net, state, m).certs);
      state := AddPrecommit(net, state, m);
      VoteStep(net, old(state), m, sent);
      Record(Action.RecvPrecommit(m), old(state), sent);
      hasMajority := !state.halted && Majority(Voters(state.precommits, m.round, m.blockHash));
    }

    /** `broadcast_prevote`: count the own prevote, then send it, unless counting it panics. */
    method BroadcastPrevote(voteRound: nat, hash: Hash, ghost a: Action) returns (hasMajority: bool)
      requires Valid() && validatorId.Some?
      requires a == PrevoteFullPropose(hash, voteRound) || (a.PrevoteInLock? && a.hash == hash && a.round == voteRound)
      requires Enabled(net, state, a)
      modifies this`state, this`actions, this`history, this`sent
      ensures Valid() && Advanced() && !state.halted
      ensures sent == old(sent) + [OwnPrevote(old(state), validatorId.value, voteRound, hash)]
      ensures if Current(hash, |state.chain|) then Timely()
              else Late(sent) == Late(old(sent)) + [OwnPrevote(old(state), validatorId.value, voteRound, hash)]
      ensures state == AddPrevote(net, old(state), OwnPrevote(old(state), validatorId.value, voteRound, hash))
      ensures Effect(state, sent[|old(sent)|..]) == SendPrevote(net, old(state), voteRound, hash)
      ensures hasMajority == Majority(Voters(state.prevotes, voteRound, hash))
    {
      hide Recorded, Late, Consistent, Expected, IsStep, AddPrevote, Enabled, SendPrevote;
      var m := OwnPrevote(state, validatorId.value, voteRound, hash);
      PrevoteStep(net, state, a, voteRound, hash, validatorId.value, sent);
      state := AddPrevote(net, state, m);
      LateMore(sent, m);
      sent := sent + [m];
      Record(a, old(state), old(sent));
      hasMajority := Majority(Voters(state.prevotes, voteRound, hash));
    }

    /** `broadcast_prevote` for the locked propose in the round just entered. */
    method PrevoteForLock() returns (hasMajority: bool)
      requires Tables() && validatorId.Some? && state.lockedPropose.Some? && !state.halted
      modifies this`state, this`sent
      ensures Tables()
      ensures var e := SendPrevote(net, old(state), old(state).round, old(state).lockedPropose.value);
              state == e.state && sent == old(sent) + e.sent && Timely()
      ensures hasMajority ==>
                && !state.halted && state.lockedPropose.Some?
                && Majority(Voters(state.prevotes, state.round, state.lockedPropose.value))
    {
      hide Recorded, Late, Consistent, Expected;
      var hash := state.lockedPropose.value;
      KnownIsCurrent(net, TheBooks(), hash);
      PrevoteInTime(net, state, state.round, hash, sent);
      var m := OwnPrevote(state, validatorId.value, state.round, hash);
      state := AddPrevote(net, state, m);
      hasMajority := false;
      if !state.halted {
        sent := sent + [m];
        hasMajority := Majority(Voters(state.prevotes, state.round, hash));
      }
    }

    /** The node moves to a later round and, if locked, prevotes for its lock there; this
        prevote is sent without asking whether there is one already. */
    method EnterRound(newRound: nat) returns (hasMajority: bool)
      requires Valid() && !state.halted && state.round < newRound
      modifies this`state, this`actions, this`history, this`sent
      ensures Valid() && Advanced() && Timely() && state.round == newRound && state.chain == old(state).chain
      ensures validatorId.Some? && old(state).lockedPropose.Some? && !state.halted ==>
                sent == old(sent)
                      + [OwnPrevote(old(state), validatorId.value, newRound, old(state).lockedPropose.value)]
      ensures validatorId.None? || old(state).lockedPropose.None? ==>
                sent == old(sent) && state == old(state).(round := newRound)
      ensures hasMajority ==>
                && !state.halted && state.lockedPropose.Some?
                && Majority(Voters(state.prevotes, state.round, state.lockedPropose.value))
    {
      hide Recorded, Late, Consistent, Expected, IsStep;
      LaterRound(net, TheBooks(), newRound);
      RoundStep(net, state, newRound, sent);
      state := state.(round := newRound);
      hasMajority := false;
      if validatorId.Some? && state.lockedPropose.Some? {
        hasMajority := PrevoteForLock();
      }
      assert old(sent) + [] == old(sent);
      Record(Action.EnterRound(newRound), old(state), old(sent));
    }

    /** `have_incompatible_prevotes`. */
    method FindIncompatiblePrevote() returns (found: bool)
      ensures found == HaveIncompatiblePrevotes(state)
    {
      var r := state.lockedRound + 1;
      while r <= state.round
        invariant state.lockedRound < r
        invariant forall q | state.lockedRound < q < r ::
            !(q in state.ourPrevotes && state.ourPrevotes[q].Prevote?
              && Some(state.ourPrevotes[q].proposeHash) != state.lockedPropose)
      {
        if r in state.ourPrevotes && state.ourPrevotes[r].Prevote?
           && Some(state.ourPrevotes[r].proposeHash) != state.lockedPropose {
          return true;
        }
        r := r + 1;
      }
      return false;
    }

    /** `execute`: the block of a known propose, built once. */
    method Execute(hash: Hash) returns (blockHash: Hash)
      requires Tables() && hash in proposes
      modifies this`proposes, this`blocks
      ensures Tables() && SameTables() && blockHash in blocks && old(blocks).Keys <= blocks.Keys
      ensures hash.ProposeHash? && blockHash == BlockHash(blocks[blockHash])
      ensures blockHash == BlockHash(MakeBlock(net, state.chain, hash.propose.validator, hash.propose.txs))
      ensures var b, p := blocks[blockHash], hash.propose;
              && b.proposer == p.validator && b.height == |state.chain| && b.txs == p.txs
              && b.prevHash == LastHash(state.chain) && b.stateHash == net.exec(state.chain, p.txs)
    {
      hide Recorded, Late, Consistent, Expected;
      KnownIsCurrent(net, TheBooks(), hash);
      if proposes[hash].blockHash.Some? {
        ExecutedBlock(net, TheBooks(), hash);
        blockHash := proposes[hash].blockHash.value;
        StoredBlock(net, TheBooks(), blockHash);
        return;
      }
      MoreExecuted(net, TheBooks(), hash);
      var p := proposes[hash].propose;
      var b := MakeBlock(net, state.chain, p.validator, p.txs);
      blockHash := BlockHash(b);
      if blockHash !in blocks {
        blocks := blocks[blockHash := b];
      } else {
        StoredBlock(net, TheBooks(), blockHash);
        assert blocks[blockHash := b] == blocks;
      }
      proposes := proposes[hash := proposes[hash].(blockHash := Some(blockHash))];
    }

    /** `broadcast_precommit` for the lock just made. */
    method PrecommitForLock(blockHash: Hash) returns (hasMajority: bool)
      requires Tables() && validatorId.Some? && !state.halted && !HaveIncompatiblePrevotes(state)
      requires state.lockedPropose.Some? && state.lockedPropose.value.ProposeHash?
      requires var p := state.lockedPropose.value.propose;
               blockHash == BlockHash(MakeBlock(net, state.chain, p.validator, p.txs))
      modifies this`state, this`sent
      ensures Tables() && old(state).certs <= state.certs && Timely()
      ensures var e := SendPrecommit(net, old(state), old(state).lockedRound, old(state).lockedPropose.value, clock);
              state == e.state && sent == old(sent) + e.sent
              && hasMajority == Commits(net, e, old(state).lockedRound, blockHash)
      ensures hasMajority ==> !state.halted && (|old(state).chain|, old(state).lockedRound, blockHash) in state.certs
    {
      hide Recorded, Late, MakeBlock, HaveIncompatiblePrevotes, Consistent, Expected, AddPrecommit, SendPrecommit;
      PrecommitInTime(net, state, state.lockedRound, state.lockedPropose.value, clock, sent);
      var m := Precommit(validatorId.value, |state.chain|, state.lockedRound, state.lockedPropose.value, blockHash,
        clock, key);
      PrecommitSent(net, state, validatorId.value, state.lockedRound, state.lockedPropose.value, clock);
      PrecommitCounted(net, state, m);
      MoreCerts(net, TheBooks(), AddPrecommit(net, state, m).certs);
      state := AddPrecommit(net, state, m);
      hasMajority := false;
      if !state.halted {
        sent := sent + [m];
        hasMajority := Majority(Voters(state.precommits, state.lockedRound, blockHash));
      }
    }

    /** The lock change inside `lock`, with the precommit that goes with it; `committing` when there
        is a majority of precommits with it. */
    method LockOn(voteRound: nat, hash: Hash) returns (committing: bool, blockHash: Hash)
      requires Valid() && !state.halted && state.lockedRound < voteRound <= state.round && hash in proposes
      requires Majority(Voters(state.prevotes, voteRound, hash))
      modifies this`state, this`actions, this`history, this`sent, this`proposes, this`blocks
      ensures Valid() && Advanced() && Timely() && SameTables() && hash.ProposeHash?
      ensures state.chain == old(state).chain && state.round == old(state).round
              && state.prevotes == old(state).prevotes
      ensures state.lockedRound == voteRound && state.lockedPropose == Some(hash)
              && state.ourPrevotes == old(state).ourPrevotes
      ensures var e := Locking(net, old(state), voteRound, hash, clock);
              && state == e.state && sent == old(sent) + e.sent
              && committing == Commits(net, e, voteRound, BlockHash(BlockOver(net, state.chain, hash.propose)))
      ensures committing ==> !state.halted && (|state.chain|, voteRound, blockHash) in state.certs
      ensures committing ==> blockHash == BlockHash(BlockOver(net, state.chain, hash.propose))
      ensures validatorId.Some? && !state.halted ==>
                if exists q | voteRound < q <= state.round && q in state.ourPrevotes && state.ourPrevotes[q].Prevote? ::
                     state.ourPrevotes[q].proposeHash != hash
                then sent == old(sent)
                else sent == old(sent) + [Precommit(validatorId.value, |state.chain|, voteRound, hash,
                                            BlockHash(BlockOver(net, state.chain, hash.propose)), clock, key)]
    {
      hide Recorded, Late, IsStep, SendPrecommit, Consistent, Expected, Commits, MakeBlock;
      committing, blockHash := MoveLock(voteRound, hash);
      LockEffect(net, old(state).(lockedRound := voteRound, lockedPropose := Some(hash)), voteRound, hash, clock);
      LockSends(net, old(state), validatorId, voteRound, hash, clock);
      LockStep(net, old(state), hash, voteRound, clock, state, old(sent), sent);
      Record(Action.LockOn(hash, voteRound, clock), old(state), old(sent));
    }

    method MoveLock(voteRound: nat, hash: Hash) returns (committing: bool, blockHash: Hash)
      requires Tables() && !state.halted && 0 < voteRound && hash in proposes
      modifies this`state, this`sent, this`proposes, this`blocks
      ensures Tables() && SameTables() && old(state).certs <= state.certs && Timely() && hash.ProposeHash?
      ensures var e := Locking(net, old(state), voteRound, hash, clock);
              && state == e.state && sent == old(sent) + e.sent
              && committing == Commits(net, e, voteRound, BlockHash(BlockOver(net, old(state).chain, hash.propose)))
      ensures committing ==> !state.halted && (|old(state).chain|, voteRound, blockHash) in state.certs
      ensures committing ==> blockHash == BlockHash(BlockOver(net, old(state).chain, hash.propose))
    {
      hide Recorded, Late, Consistent, Expected, HaveIncompatiblePrevotes, HasMajority, AddPrecommit;
      KnownIsCurrent(net, TheBooks(), hash);
      committing, blockHash := false, hash;
      state := state.(lockedRound := voteRound, lockedPropose := Some(hash));
      if validatorId.Some? {
        committing, blockHash := PrecommitIfCompatible(hash);
      }
    }

    /** The precommit of a validator for the lock just made, unless a prevote stands against it. */
    method PrecommitIfCompatible(hash: Hash) returns (committing: bool, blockHash: Hash)
      requires Tables() && !state.halted && validatorId.Some? && state.lockedPropose == Some(hash)
      modifies this`state, this`sent, this`proposes, this`blocks
      ensures Tables() && SameTables() && old(state).certs <= state.certs && Timely() && hash.ProposeHash?
      ensures var e := SendPrecommit(net, old(state), old(state).lockedRound, hash, clock);
              && state == e.state && sent == old(sent) + e.sent
              && committing == Commits(net, e, old(state).lockedRound,
                                       BlockHash(BlockOver(net, old(state).chain, hash.propose)))
      ensures committing ==> !state.halted && (|old(state).chain|, old(state).lockedRound, blockHash) in state.certs
      ensures committing ==> blockHash == BlockHash(BlockOver(net, old(state).chain, hash.propose))
    {
      hide Recorded, Late, HaveIncompatiblePrevotes, Consistent, Expected, AddPrecommit, HasMajority;
      committing, blockHash := false, hash;
      KnownIsCurrent(net, TheBooks(), hash);
      var incompatible := FindIncompatiblePrevote();
      if !incompatible {
        blockHash := Execute(hash);
        committing := PrecommitForLock(blockHash);
      }
    }

    // ----- Voting -----

    /** Nothing waits, the propose is complete, and the current round is above the lock and has the
        prevote of the node if it is a validator. */
    ghost predicate Ready(hash: Hash, r: nat)
      reads this
    {
      && queued == [] && hash in proposes && proposes[hash].unknownTxs == {}
      && state.lockedRound < r == state.round && (validatorId.Some? ==> r in state.ourPrevotes)
    }

    /** The node has this state, has nothing waiting, and knows the propose and its transactions;
        pool and waiting majorities are as before. */
    ghost predicate Stays(from: Moment, s: NodeState, hash: Hash)
      reads this
    {
      && state == s && queued == [] && hash in proposes && proposes[hash].unknownTxs == {}
      && transactions == from.transactions && unknownProposes == from.unknownProposes
    }

    /** Where a majority of prevotes leads a node that is ready: it locks and, if a validator, sends
        its precommit.  When there is a majority of precommits with it, the block of the propose is
        appended. */
    ghost predicate Outcome(from: Moment, hash: Hash, r: nat)
      reads this
    {
      && hash.ProposeHash?
      && var e, b := Locking(net, from.state, r, hash, from.clock), BlockOver(net, from.state.chain, hash.propose);
         && sent == from.sent + e.sent
         && if Commits(net, e, r, BlockHash(b)) then Began(from, b) else Stays(from, e.state, hash)
    }

    /** `lock`: prevote for the propose in every round without a prevote, and move the lock up
        through every round with a majority.  Unless the node commits, panics or waits for
        transactions, its lock ends on the last round with a majority. */
    method Lock(prevoteRound: nat, hash: Hash)
      requires Valid() && !state.halted && state.lockedRound < prevoteRound && hash in proposes
      requires Majority(Voters(state.prevotes, prevoteRound, hash))
      modifies this
      ensures Valid() && Advanced() && Timely() && QueueKept()
      ensures old(prevoteRound <= state.round) ==> Left() || LockedAt(hash, prevoteRound)
      ensures Left() || (unknownProposes == old(unknownProposes) && state.round == old(state).round && SameTables())
      ensures Left() || forall q | 0 <= q < prevoteRound ::
                Voters(state.prevotes, q, hash) == Voters(old(state).prevotes, q, hash)
      ensures !Left() && old(proposes)[hash].unknownTxs == {} && validatorId.Some? ==>
                forall q | prevoteRound <= q <= state.round :: q in state.ourPrevotes
      ensures !Left() && old(proposes)[hash].unknownTxs == {} && prevoteRound <= old(state).round ==>
                forall q | state.lockedRound < q <= state.round :: !Majority(Voters(state.prevotes, q, hash))
      ensures old(Ready(hash, prevoteRound)) ==> Outcome(old(Now()), hash, prevoteRound)
      decreases |queued|, 5, 2
    {
      hide Recorded, Late, Consistent, Expected, Held, Outcome, Tables;
      var last: int := state.round;
      var r := prevoteRound;
      while r <= last
        invariant Valid() && Advanced() && Timely() && !state.halted && queued == old(queued)
        invariant state.chain == old(state).chain && state.round == last && hash in proposes
        invariant unknownProposes == old(unknownProposes) && SameTables()
        invariant prevoteRound <= r && (r <= last + 1 || r == prevoteRound) && state.lockedRound < r
        invariant || (state.lockedPropose == Some(hash) && prevoteRound <= state.lockedRound)
                  || (r == prevoteRound && Majority(Voters(state.prevotes, prevoteRound, hash)))
        invariant forall q | 0 <= q < prevoteRound ::
                    Voters(state.prevotes, q, hash) == Voters(old(state).prevotes, q, hash)
        invariant validatorId.Some? ==> forall q | prevoteRound <= q < r :: q in state.ourPrevotes
        invariant forall q | state.lockedRound < q < r :: q < prevoteRound || !Majority(Voters(state.prevotes, q, hash))
        invariant if r == prevoteRound then unchanged(this)
                  else old(Ready(hash, prevoteRound)) ==> Outcome(old(Now()), hash, prevoteRound)
        decreases last + 1 - r
      {
        var done := LockTurn(r, hash, prevoteRound);
        if done {
          return;
        }
        r := r + 1;
      }
      HeldSame(net, state, queued);
    }

    /** One turn of the loop of `lock`. */
    method LockTurn(r: nat, hash: Hash, ghost prevoteRound: nat) returns (done: bool)
      requires Valid() && !state.halted && hash in proposes && state.lockedRound < r <= state.round
      requires || state.lockedPropose == Some(hash)
               || (state.lockedRound < prevoteRound <= r && Majority(Voters(state.prevotes, prevoteRound, hash)))
      modifies this
      ensures Valid() && Advanced() && Timely() && QueueKept()
      ensures done ==> Left() || (LockedAt(hash, r) && old(proposes)[hash].unknownTxs != {})
      ensures !done ==> !Left() && queued == old(queued)
      ensures Left() || (unknownProposes == old(unknownProposes) && state.round == old(state).round && SameTables())
      ensures Left() || forall q | q != r :: Voters(state.prevotes, q, hash) == Voters(old(state).prevotes, q, hash)
      ensures !Left() ==> old(state).ourPrevotes.Keys <= state.ourPrevotes.Keys
      ensures !Left() ==> validatorId == old(validatorId) && (validatorId.Some? ==> r in state.ourPrevotes)
      ensures !done ==>
                if Majority(Voters(state.prevotes, r, hash))
                then state.lockedRound == r && state.lockedPropose == Some(hash)
                else state.lockedRound == old(state).lockedRound && state.lockedPropose == old(state).lockedPropose
      ensures old(Majority(Voters(state.prevotes, r, hash))) ==> Left() || Majority(Voters(state.prevotes, r, hash))
      ensures old(Ready(hash, r) && Majority(Voters(state.prevotes, r, hash))) ==>
                Outcome(old(Now()), hash, r)
      decreases |queued|, 5, 1
    {
      hide Recorded, Late, Consistent, Expected, Held, Outcome, Tables;
      PrevoteIfNone(r, hash, prevoteRound);
      ghost var prevoted := state;
      done := LockRound(r, hash);
      assert !done ==> state.chain == prevoted.chain && state.prevotes == prevoted.prevotes;
    }

    /** The lock change inside `lock`; `done` when the node tried to commit or panicked. */
    method LockRound(r: nat, hash: Hash) returns (done: bool)
      requires Valid() && !state.halted && state.lockedRound < r <= state.round && hash in proposes
      modifies this
      ensures Valid() && Advanced() && Timely() && QueueKept()
      ensures done ==> Left() || (LockedAt(hash, r) && old(proposes)[hash].unknownTxs != {})
      ensures !Left() ==> state.prevotes == old(state).prevotes && state.round == old(state).round
      ensures !Left() ==> state.ourPrevotes == old(state).ourPrevotes && validatorId == old(validatorId)
      ensures !Left() ==> unknownProposes == old(unknownProposes) && SameTables()
      ensures !done ==> !Left() && queued == old(queued)
      ensures !done && old(Majority(Voters(state.prevotes, r, hash))) ==>
                state.lockedRound == r && state.lockedPropose == Some(hash)
      ensures !done && !old(Majority(Voters(state.prevotes, r, hash))) ==> state == old(state)
      ensures old(queued == [] && proposes[hash].unknownTxs == {} && Majority(Voters(state.prevotes, r, hash))) ==>
                Outcome(old(Now()), hash, r)
      decreases |queued|, 5, 0
    {
      hide Recorded, Late, Consistent, Expected, Held, Locking, Commits;
      if !Majority(Voters(state.prevotes, r, hash)) {
        HeldSame(net, state, queued);
        return false;
      }
      var committing, blockHash := LockOn(r, hash);
      HeldSame(net, state, queued);
      if committing {
        HasMajorityPrecommits(r, hash, blockHash);
      }
      return committing || state.halted;
    }

    /** The prevote inside `lock`, for a round without one. */
    method PrevoteIfNone(r: nat, hash: Hash, ghost prevoteRound: nat)
      requires Valid() && !state.halted && hash in proposes && r <= state.round
      requires || (state.lockedPropose == Some(hash) && state.lockedRound < r)
               || (state.lockedRound < prevoteRound <= r && Majority(Voters(state.prevotes, prevoteRound, hash)))
      modifies this`state, this`actions, this`history, this`sent
      ensures Valid() && Advanced() && Timely() && !state.halted
      ensures state.chain == old(state).chain && state.round == old(state).round
      ensures state.lockedRound == old(state).lockedRound && state.lockedPropose == old(state).lockedPropose
      ensures forall q | q != r :: Voters(state.prevotes, q, hash) == Voters(old(state).prevotes, q, hash)
      ensures old(state).ourPrevotes.Keys <= state.ourPrevotes.Keys && (validatorId.Some? ==> r in state.ourPrevotes)
      ensures validatorId.Some? && r !in old(state).ourPrevotes ==>
                OwnPrevote(old(state), validatorId.value, r, hash) in sent
      ensures old(Majority(Voters(state.prevotes, r, hash))) ==> Majority(Voters(state.prevotes, r, hash))
      ensures validatorId.None? || r in old(state).ourPrevotes ==> state == old(state) && sent == old(sent)
    {
      hide Recorded, Late, Consistent, Expected;
      if validatorId.Some? && r !in state.ourPrevotes {
        KnownIsCurrent(net, TheBooks(), hash);
        var _ := BroadcastPrevote(r, hash, PrevoteInLock(hash, r, prevoteRound));
        VotersGrow(old(state).prevotes, state.prevotes, r, hash);
      }
    }

    /** `has_majority_prevotes`. */
    method HasMajorityPrevotes(prevoteRound: nat, hash: Hash)
      requires Valid() && !state.halted
      requires Majority(Voters(state.prevotes, prevoteRound, hash))
      modifies this
      ensures Valid() && Advanced() && Timely() && QueueKept()
      ensures old(state.lockedRound < prevoteRound <= state.round && hash in proposes) ==>
                Left() || LockedAt(hash, prevoteRound)
      ensures !old(state.lockedRound < prevoteRound && hash in proposes) ==> unchanged(this)
      ensures old(Ready(hash, prevoteRound)) ==> Outcome(old(Now()), hash, prevoteRound)
      ensures Left() || (unknownProposes == old(unknownProposes) && state.round == old(state).round && SameTables())
      ensures Left() || forall q | 0 <= q < prevoteRound ::
                Voters(state.prevotes, q, hash) == Voters(old(state).prevotes, q, hash)
      decreases |queued|, 6
    {
      hide Recorded, Late, Consistent, Expected, Held, Outcome;
      if state.lockedRound < prevoteRound && hash in proposes {
        Lock(prevoteRound, hash);
      } else {
        HeldSame(net, state, queued);
      }
    }

    /** `add_unknown_propose_with_precommits`. */
    method RememberUnknown(voteRound: nat, hash: Hash, blockHash: Hash)
      requires Valid() && Seen(state.certs, blockHash)
      modifies this`unknownProposes
      ensures Valid() && Advanced() && Timely()
      ensures unknownProposes.Keys == old(unknownProposes).Keys + {hash}
      ensures unknownProposes[hash]
           == (if hash in old(unknownProposes) then old(unknownProposes)[hash] else []) + [(voteRound, blockHash)]
    {
      hide Recorded, Late, Consistent, Expected, Seen;
      MoreUnknown(net, TheBooks(), hash, (voteRound, blockHash));
      unknownProposes := WithEntry(unknownProposes, hash, (voteRound, blockHash));
    }

    /** When nothing was waiting, the node stands at the beginning of the next height if the block was
        the agreed one. */
    twostate predicate BeganIfAgreed(hash: Hash, blockHash: Hash)
      reads this
    {
      hash.ProposeHash? && blockHash == BlockHash(BlockOver(net, old(state).chain, hash.propose)) ==>
        Began(old(Now()), BlockOver(net, old(state).chain, hash.propose)) && sent == old(sent)
    }

    /** `has_majority_precommits`: commit the block of a known, complete propose; remember the
        majority otherwise. */
    method HasMajorityPrecommits(voteRound: nat, hash: Hash, blockHash: Hash)
      requires Valid() && !state.halted && (|state.chain|, voteRound, blockHash) in state.certs
      modifies this
      ensures Valid() && Advanced() && Timely() && QueueKept()
      ensures old(hash in proposes && proposes[hash].unknownTxs == {}) ==>
                CommittedOrHalted(net, old(state).chain, hash, blockHash, state)
      ensures old(queued == [] && hash in proposes && proposes[hash].unknownTxs == {}) ==>
                BeganIfAgreed(hash, blockHash)
      ensures old(hash in proposes && proposes[hash].unknownTxs != {}) ==> unchanged(this)
      ensures old(hash !in proposes) ==>
                && state == old(state) && sent == old(sent) && queued == old(queued)
                && hash in unknownProposes && (voteRound, blockHash) in unknownProposes[hash]
      decreases |queued|, 4
    {
      hide Recorded, Late, Consistent, Expected, Held, CommittedOrHalted, BeganIfAgreed;
      SeenHere(blockHash, voteRound);
      HeldSame(net, state, queued);
      if hash !in proposes {
        RememberUnknown(voteRound, hash, blockHash);
        return;
      }
      if proposes[hash].unknownTxs != {} {
        return;
      }
      CommitPropose(hash, blockHash);
    }

    lemma SeenHere(blockHash: Hash, voteRound: nat)
      requires (|state.chain|, voteRound, blockHash) in state.certs
      ensures Seen(state.certs, blockHash)
    {
    }

    /** The part of `commit` before the queue: append the block and start the next height. */
    method CommitBlock(blockHash: Hash)
      requires Valid() && !state.halted && blockHash in blocks && Seen(state.certs, blockHash)
      modifies this
      ensures Valid() && Advanced() && Timely() && queued == old(queued) && sent == old(sent)
      ensures state == NewHeight(old(state), old(blocks[blockHash]))
      ensures transactions == old(transactions) - set tx | tx in old(blocks[blockHash]).txs
      ensures unknownProposes == old(unknownProposes)
    {
      hide Recorded, Late, Consistent, Expected, Seen, MakeBlock, Committed;
      StoredBlock(net, TheBooks(), blockHash);
      OneBlockLonger(net, TheBooks(), blockHash);
      ExpectedLater(queued, received, |state.chain|, |state.chain| + 1);
      var b := blocks[blockHash];
      AppendBlock(b);
      transactions := transactions - set tx | tx in b.txs;
      blocks, proposes := map[], map[];
    }

    method AppendBlock(b: Block)
      requires Traced() && state.key == key && !state.halted
      requires b == MakeBlock(net, state.chain, b.proposer, b.txs) && Seen(state.certs, BlockHash(b))
      modifies this`state, this`validatorId, this`actions, this`history
      ensures Traced() && old(actions) <= actions
      ensures state == NewHeight(old(state), b) && validatorId == ValidatorId(net, state)
    {
      hide Recorded, Late, IsStep, Seen, MakeBlock;
      state := NewHeight(state, b);
      validatorId := FindValidator(net.validators(state.chain), key);
      CommitStep(net, old(state), b, sent);
      Record(Action.Commit(b), old(state), sent);
    }

    /** `commit`: append the block, start the next height, then handle the queued messages. */
    method Commit(blockHash: Hash)
      requires Valid() && !state.halted && blockHash in blocks && Seen(state.certs, blockHash)
      modifies this
      ensures Valid() && Advanced() && Timely() && QueueKept() && OnlyEarly(|state.chain|, state.round, queued)
      ensures old(state).chain + [old(blocks[blockHash])] <= state.chain
      ensures old(queued) == [] ==> Began(old(Now()), old(blocks[blockHash])) && sent == old(sent)
      decreases |queued|, 3
    {
      hide Recorded, Late, Consistent, Expected, Kept, OnlyEarly, Grows, Settled;
      CommitBlock(blockHash);
      var msgs := queued;
      queued := [];
      NoneWait();
      assert msgs[..0] == [];
      for i := 0 to |msgs|
        invariant Valid() && Advanced() && Timely() && |queued| <= i
        invariant old(state).chain + [old(blocks[blockHash])] <= state.chain
        invariant i == 0 ==> Began(old(Now()), old(blocks[blockHash])) && sent == old(sent)
        invariant Kept(net, state, msgs[..i], queued) && OnlyEarly(|state.chain|, state.round, queued)
        invariant Expected(msgs, received, |state.chain|)
      {
        if state.halted {
          StoppedKeeps(msgs);
          return;
        }
        HandleWaiting(msgs, i);
      }
      assert msgs[..|msgs|] == msgs;
    }

    lemma NoneWait()
      ensures Expected([], received, |state.chain|) && OnlyEarly(|state.chain|, state.round, [])
      ensures Kept(net, state, [], [])
    {
    }

    lemma StoppedKeeps(msgs: seq<Message>)
      requires state.halted
      ensures Kept(net, state, msgs, queued)
    {
    }

    /** One turn of the loops over the queue: the message is handled, and those before it stay
        settled or waiting. */
    method HandleWaiting(msgs: seq<Message>, i: nat)
      requires Valid() && !state.halted && i < |msgs|
      requires Kept(net, state, msgs[..i], queued) && OnlyEarly(|state.chain|, state.round, queued)
      requires Expected(msgs, received, |state.chain|)
      modifies this
      ensures Valid() && Advanced() && Timely() && |queued| <= old(|queued|) + 1
      ensures Kept(net, state, msgs[..i + 1], queued) && OnlyEarly(|state.chain|, state.round, queued)
      ensures Expected(msgs, received, |state.chain|)
      decreases |queued|, 10
    {
      hide Recorded, Late, Consistent, Kept, OnlyEarly, Grows, Settled, Taken;
      ghost var history0, actions0, s, q := history, actions, state, queued;
      assert msgs[i] in msgs;
      HandleConsensus(msgs[i]);
      HasGrown(history0, actions0, received);
      KeptTwice(net, s, state, msgs[..i], q, queued);
      KeptMore(net, state, msgs[..i], msgs[i], queued);
      assert msgs[..i + 1] == msgs[..i] + [msgs[i]];
    }

    // ----- Messages -----

    /** The message waits, and nothing else has changed. */
    twostate predicate OnlyQueued(msg: Message)
      reads this
    {
      && state == old(state) && sent == old(sent) && sentProposes == old(sentProposes)
      && queued == old(queued) + [msg]
      && proposes == old(proposes) && unknownProposes == old(unknownProposes) && transactions == old(transactions)
    }

    /** What a consensus message does: an early one waits, one of another height or without the
        signature of its validator does nothing, any other is taken in. */
    twostate predicate Taken(msg: Message)
      reads this
    {
      if Early(|old(state).chain|, old(state).round, msg) then OnlyQueued(msg)
      else if !Authentic(net, old(state), msg) then Untouched()
      else
        match msg
        case ProposeMsg(p) => ProposeTaken(p)
        case Prevote(_, _, _, _, _, _) => PrevoteTaken(msg)
        case Precommit(_, _, _, _, _, _, _) => PrecommitTaken(msg)
    }

    /** `handle_consensus`: drop messages of other heights, queue those of the next height or a
        later round, check the signature of the rest and dispatch. */
    method HandleConsensus(msg: Message)
      requires Valid() && !state.halted && msg in received
      modifies this
      ensures Valid() && Advanced() && Timely() && |queued| <= old(|queued|) + 1
      ensures QueueHeld()
      ensures MessageHeight(msg) <= |old(state).chain| + 1 ==> msg in queued || Settled(net, state, msg)
      ensures Taken(msg)
      decreases |queued|, 9
    {
      hide Recorded, Late, Consistent, Expected, ProposeTaken, PrevoteTaken, PrecommitTaken, Held, Settled, Acceptable;
      HeldSame(net, state, queued);
      if MessageHeight(msg) < |state.chain| || MessageHeight(msg) > |state.chain| + 1 {
        PastIsSettled(msg);
        return;
      }
      if MessageHeight(msg) == |state.chain| + 1 || MessageRound(msg) > state.round {
        HeldMore(net, state, queued, msg);
        ExpectedMore(queued, received, |state.chain|, msg);
        queued := queued + [msg];
        return;
      }
      if !Authentic(net, state, msg) {
        ForgedIsSettled(msg);
        return;
      }
      match msg {
        case ProposeMsg(p) => HandlePropose(p);
        case Prevote(_, _, _, _, _, _) => HandlePrevote(msg);
        case Precommit(_, _, _, _, _, _, _) => HandlePrecommit(msg);
      }
    }

    lemma PastIsSettled(msg: Message)
      ensures MessageHeight(msg) < |state.chain| ==> Settled(net, state, msg)
    {
    }

    lemma ForgedIsSettled(msg: Message)
      requires MessageHeight(msg) == |state.chain| && MessageRound(msg) <= state.round && !Authentic(net, state, msg)
      ensures Settled(net, state, msg)
    {
    }

    /** An unlocked validator without a prevote in the round. */
    predicate MayPrevote(r: nat)
      reads this
    {
      state.lockedRound == 0 && validatorId.Some? && r !in state.ourPrevotes
    }

    /** The first vote sent since is a prevote for the propose. */
    twostate predicate Prevotes(r: nat, hash: Hash)
      reads this
    {
      && old(validatorId).Some? && |old(sent)| < |sent|
      && sent[|old(sent)|]
      == Prevote(old(validatorId).value, |old(state).chain|, r, hash, old(state).lockedRound, old(state).key)
    }

    /** An unlocked node in this round, without a prevote there and with nothing waiting. */
    ghost predicate Clear(hash: Hash, r: nat)
      reads this
    {
      && queued == [] && state.lockedRound == 0 && 0 < r == state.round && r !in state.ourPrevotes
      && hash !in unknownProposes
    }

    /** Where a complete propose of the current round leads such a node: it prevotes if it is a
        validator, and locks if there is a majority of prevotes. */
    ghost predicate Voted(from: Moment, hash: Hash, r: nat)
      reads this
    {
      var e := SendPrevote(net, from.state, r, hash);
      if HasMajority(net, e.state, Voters(e.state.prevotes, r, hash))
      then Outcome(from.(state := e.state, sent := from.sent + e.sent), hash, r)
      else Stays(from, e.state, hash) && sent == from.sent + e.sent
    }

    /** A majority of precommits waits for the propose, and there is no majority of prevotes for it in
        this round or a later one. */
    ghost predicate AwaitsOnly(hash: Hash, r: nat)
      reads this
    {
      hash in unknownProposes && unknownProposes[hash] != [] && NoMajorityFrom(hash, r)
    }

    ghost predicate NoMajorityFrom(hash: Hash, r: nat)
      reads this
    {
      forall q | r <= q <= state.round :: !Majority(Voters(state.prevotes, q, hash))
    }

    /** What an authentic propose of this height and of a round that has come does. */
    twostate predicate ProposeTaken(p: Propose)
      requires Authentic(net, old(state), ProposeMsg(p))
      reads this
    {
      var hash, chain, unknown := ProposeHash(p), old(state).chain, set tx | tx in p.txs && tx !in old(transactions);
      var learned := old(state).(proposes := old(state).proposes + {hash});
      var onTop := p.prevHash == if chain == [] then OtherHash(0) else BlockHash(chain[|chain| - 1]);
      var byLeader := p.validator == (|chain| + p.round) % |net.validators(chain)|;
      var unspent := forall b, tx | b in chain && tx in p.txs :: tx !in b.txs;
      if !(onTop && byLeader && unspent) || hash in old(proposes) then Untouched()
      else if unknown != {} then
        && state == learned && proposes == old(proposes)[hash := ProposeState(p, unknown, None)]
        && sent == old(sent) && sentProposes == old(sentProposes) && queued == old(queued)
        && unknownProposes == old(unknownProposes) && transactions == old(transactions)
      else
        && (Left() || hash in state.proposes)
        && (old(MayPrevote(p.round)) ==> Prevotes(p.round, hash))
        && (old(validatorId.None? && AwaitsOnly(hash, p.round)) ==>
              CommittedOrHalted(net, old(state).chain, hash, old(unknownProposes)[hash][0].1, state))
        && (old(Clear(hash, p.round)) ==> Voted(old(Now()).(state := learned), hash, p.round))
    }

    /** `handle_propose`. */
    method HandlePropose(p: Propose)
      requires Valid() && !state.halted
      requires Authentic(net, state, ProposeMsg(p)) && p.round <= state.round
      modifies this
      ensures Valid() && Advanced() && Timely() && QueueKept() && ProposeTaken(p)
      ensures Settled(net, state, ProposeMsg(p))
      decreases |queued|, 8
    {
      hide Recorded, Late, Consistent, Expected, Held, Voted, Prevotes, Clear, MayPrevote;
      HeldSame(net, state, queued);
      if p.prevHash != LastHash(state.chain) || p.validator != Leader(net, state.chain, p.round) {
        return;
      }
      if exists tx | tx in p.txs :: Committed(state.chain, tx) {
        return;
      }
      var hash := ProposeHash(p);
      if hash in proposes {
        return;
      }
      TakePropose(p);
    }

    /** The part of `handle_propose` after its checks. */
    method TakePropose(p: Propose)
      requires Valid() && !state.halted && Authentic(net, state, ProposeMsg(p)) && p.round <= state.round
      requires Acceptable(net, state.chain, p) && ProposeHash(p) !in proposes
      modifies this
      ensures Valid() && Advanced() && Timely() && QueueKept() && ProposeTaken(p)
      ensures Left() || ProposeHash(p) in state.proposes
      decreases |queued|, 7, 4
    {
      hide Recorded, Late, Consistent, Expected, Held, Voted;
      var unknown := set tx | tx in p.txs && tx !in transactions;
      LearnPropose(p, unknown);
      HeldSame(net, state, queued);
      if unknown == {} {
        HasFullPropose(ProposeHash(p), p.round);
      }
    }

    /** An unlocked validator without a prevote in the round is handed a propose of a past height. */
    predicate SendsLate(hash: Hash, proposeRound: nat)
      reads this
    {
      Stale(state, hash) && MayPrevote(proposeRound)
    }

    /** The only validator has a complete propose of the current round, no votes, no lock and nothing
        waiting. */
    ghost predicate Alone(hash: Hash, proposeRound: nat)
      reads this
    {
      && queued == [] && validatorId.Some? && |net.validators(state.chain)| == 1 && hash !in unknownProposes
      && hash in proposes && proposes[hash].unknownTxs == {} && 0 < proposeRound == state.round
      && state.lockedRound == 0 && state.ourPrevotes == map[] && state.ourPrecommits == map[]
    }

    /** `has_full_propose`: prevote if not locked, lock where there is a majority, and commit
        the majorities of precommits that were waiting for this propose.  When an earlier
        propose of the same batch was committed, `hash` belongs to a past height; exactly then
        the prevote is late. */
    method HasFullPropose(hash: Hash, proposeRound: nat)
      requires Valid() && !state.halted
      requires Stale(state, hash) || (hash in proposes && hash.ProposeHash? && hash.propose.round == proposeRound)
      modifies this
      ensures Valid() && Advanced() && QueueKept()
      ensures old(MayPrevote(proposeRound)) ==> Prevotes(proposeRound, hash)
      ensures if old(SendsLate(hash, proposeRound))
              then Late(sent) == Late(old(sent)) + [OwnPrevote(old(state), old(validatorId).value, proposeRound, hash)]
              else Timely()
      ensures old(hash in unknownProposes && unknownProposes[hash] != []) ==> Left()
      ensures Left() || SameTables()
      ensures old(Clear(hash, proposeRound) && hash in proposes && proposes[hash].unknownTxs == {}) ==>
                Voted(old(Now()), hash, proposeRound)
      ensures old(!MayPrevote(proposeRound) && hash in proposes && AwaitsOnly(hash, proposeRound)) ==>
                CommittedOrHalted(net, old(state).chain, hash, old(unknownProposes)[hash][0].1, state)
      decreases |queued|, 7, 3
    {
      hide Recorded, Late, Consistent, Expected, Held, AddPrevote, SendPrevote, Outcome, Tables, CommittedOrHalted;
      PrevoteUnlocked(hash, proposeRound);
      Basics();
      if validatorId.None? {
        NoPrevote(net, old(state), proposeRound, hash);
        assert old(sent) + [] == old(sent);
      }
      LockAndCommit(hash, if state.lockedRound + 1 < proposeRound then proposeRound else state.lockedRound + 1);
    }

    /** What `has_full_propose` does after the prevote. */
    method LockAndCommit(hash: Hash, startRound: nat)
      requires Valid() && !state.halted
      modifies this
      ensures Valid() && Advanced() && Timely() && QueueKept()
      ensures old(hash in unknownProposes && unknownProposes[hash] != []) ==> Left()
      ensures Left() || SameTables()
      ensures old(Ready(hash, startRound) && hash !in unknownProposes) ==>
                if old(Majority(Voters(state.prevotes, startRound, hash)))
                then Outcome(old(Now()), hash, startRound)
                else Stays(old(Now()), old(state), hash) && sent == old(sent)
      ensures old(hash in proposes && AwaitsOnly(hash, startRound)) ==>
                CommittedOrHalted(net, old(state).chain, hash, old(unknownProposes)[hash][0].1, state)
      decreases |queued|, 7, 2
    {
      hide Recorded, Late, Consistent, Expected, Held, Grows, Locking, Commits, Tables;
      LockFrom(hash, startRound);
      if !state.halted {
        ghost var history0, actions0, s, q := history, actions, state, queued;
        CommitWaiting(hash);
        HasGrown(history0, actions0, received);
        HeldTwice(net, |old(state).chain|, old(state).round, old(queued), s, q, state, queued);
      }
    }

    /** The prevote of `has_full_propose`. */
    method PrevoteUnlocked(hash: Hash, proposeRound: nat)
      requires Valid() && !state.halted
      requires Stale(state, hash) || (hash in proposes && hash.ProposeHash? && hash.propose.round == proposeRound)
      modifies this`state, this`actions, this`history, this`sent
      ensures Valid() && Advanced() && !state.halted
      ensures state.chain == old(state).chain && state.round == old(state).round
      ensures state.lockedRound == old(state).lockedRound
      ensures if old(MayPrevote(proposeRound))
              then && sent == old(sent) + [OwnPrevote(old(state), old(validatorId).value, proposeRound, hash)]
                   && Effect(state, sent[|old(sent)|..]) == SendPrevote(net, old(state), proposeRound, hash)
                   && proposeRound in state.ourPrevotes
              else sent == old(sent) && state == old(state)
      ensures if old(SendsLate(hash, proposeRound))
              then Late(sent) == Late(old(sent)) + [OwnPrevote(old(state), old(validatorId).value, proposeRound, hash)]
              else Timely()
    {
      hide Recorded, Late, Consistent, Expected, SendPrevote;
      if !Stale(state, hash) {
        KnownIsCurrent(net, TheBooks(), hash);
      }
      if state.lockedRound == 0 && validatorId.Some? && proposeRound !in state.ourPrevotes {
        var _ := BroadcastPrevote(proposeRound, hash, PrevoteFullPropose(hash, proposeRound));
      }
    }

    /** One turn of the lock loop of `has_full_propose`. */
    method TryLock(r: nat, hash: Hash)
      requires Valid() && !state.halted
      modifies this
      ensures Valid() && Advanced() && Timely() && QueueKept()
      ensures old(hash !in proposes) ==> unchanged(this)
      ensures Left() || (unknownProposes == old(unknownProposes) && state.round == old(state).round && SameTables())
      ensures Left() || forall q | 0 <= q < r :: Voters(state.prevotes, q, hash) == Voters(old(state).prevotes, q, hash)
      ensures Left() || hash !in proposes || r > state.round || r <= state.lockedRound
              || !Majority(Voters(state.prevotes, r, hash))
      ensures !old(Majority(Voters(state.prevotes, r, hash))) ==> unchanged(this)
      ensures old(Ready(hash, r) && Majority(Voters(state.prevotes, r, hash))) ==> Outcome(old(Now()), hash, r)
      decreases |queued|, 7, 0
    {
      hide Recorded, Late, Consistent, Expected, Held, Outcome;
      HeldSame(net, state, queued);
      if Majority(Voters(state.prevotes, r, hash)) {
        HasMajorityPrevotes(r, hash);
      }
    }

    /** The lock loop of `has_full_propose`. */
    method LockFrom(hash: Hash, startRound: nat)
      requires Valid() && !state.halted
      modifies this
      ensures Valid() && Advanced() && Timely() && QueueKept()
      ensures Left() || (hash in proposes ==>
                forall q | startRound <= q <= state.round && Majority(Voters(state.prevotes, q, hash)) ::
                  q <= state.lockedRound)
      ensures Left() || (unknownProposes == old(unknownProposes) && SameTables())
      ensures old(hash !in proposes) ==> unchanged(this)
      ensures old(Ready(hash, startRound) && Majority(Voters(state.prevotes, startRound, hash))) ==>
                Outcome(old(Now()), hash, startRound)
      ensures old(NoMajorityFrom(hash, startRound)) ==> unchanged(this)
      decreases |queued|, 7, 1
    {
      hide Recorded, Late, Consistent, Expected, Held, Outcome, Grows, Tables, Ready, NoMajorityFrom;
      var last: int := state.round;
      var r := startRound;
      HeldSame(net, state, queued);
      ReadyIsNow(hash, startRound);
      while r <= last
        invariant Valid() && Advanced() && Timely() && !state.halted && QueueKept()
        invariant || Left()
                  || (state.round == last && unknownProposes == old(unknownProposes) && startRound <= r && SameTables())
        invariant Left() || hash !in proposes ||
                  forall q | startRound <= q < r && Majority(Voters(state.prevotes, q, hash)) :: q <= state.lockedRound
        invariant r == startRound || old(hash !in proposes) || old(NoMajorityFrom(hash, startRound)) ==> unchanged(this)
        invariant old(Ready(hash, startRound) && Majority(Voters(state.prevotes, startRound, hash))) ==>
                    r == startRound || (r > last && Outcome(old(Now()), hash, startRound))
        decreases last + 1 - r
      {
        NoneFrom(hash, startRound, r);
        ghost var history0, actions0, s, q := history, actions, state, queued;
        TryLock(r, hash);
        HasGrown(history0, actions0, received);
        HeldTwice(net, |old(state).chain|, old(state).round, old(queued), s, q, state, queued);
        assert |state.chain| == |s.chain| ==> state.chain == s.chain;
        if state.halted {
          return;
        }
        r := r + 1;
      }
    }

    lemma ReadyIsNow(hash: Hash, r: nat)
      ensures Ready(hash, r) ==> r == state.round
    {
    }

    lemma NoneFrom(hash: Hash, start: nat, r: nat)
      ensures NoMajorityFrom(hash, start) && start <= r <= state.round ==> !Majority(Voters(state.prevotes, r, hash))
    {
    }

    /** The commit loop of `has_full_propose`; executing a propose that is no longer known panics. */
    method CommitWaiting(hash: Hash)
      requires Valid() && !state.halted
      modifies this
      ensures Valid() && Advanced() && Timely() && QueueKept()
      ensures old(hash in unknownProposes && unknownProposes[hash] != []) ==> Left()
      ensures Left() || SameTables()
      ensures old(hash in proposes && hash in unknownProposes && unknownProposes[hash] != []) ==>
                CommittedOrHalted(net, old(state).chain, hash, old(unknownProposes)[hash][0].1, state)
      ensures old(hash !in unknownProposes) ==> Untouched()
      decreases |queued|, 7, 0
    {
      hide Recorded, Late, Consistent, Expected, Held, Grows, CommittedOrHalted, Seen, BeganIfAgreed;
      var waiting := if hash in unknownProposes then unknownProposes[hash] else [];
      if hash in unknownProposes {
        WaitingSeen(net, TheBooks(), hash);
      }
      LessUnknown(net, TheBooks(), hash);
      unknownProposes := unknownProposes - {hash};
      HeldSame(net, state, queued);
      for i := 0 to |waiting|
        invariant Valid() && Advanced() && Timely() && QueueKept() && !state.halted
        invariant i > 0 ==> Left()
        invariant i > 0 && old(hash in proposes) ==>
                    CommittedOrHalted(net, old(state).chain, hash, waiting[0].1, state)
        invariant Left() || SameTables()
        invariant i == 0 ==>
                    && state == old(state) && sent == old(sent) && sentProposes == old(sentProposes)
                    && queued == old(queued) && proposes == old(proposes) && transactions == old(transactions)
                    && unknownProposes == old(unknownProposes) - {hash}
        invariant forall j | 0 <= j < |waiting| :: Seen(state.certs, waiting[j].1)
      {
        ghost var history0, actions0, s, q := history, actions, state, queued;
        CommitPropose(hash, waiting[i].1);
        HasGrown(history0, actions0, received);
        HeldTwice(net, |old(state).chain|, old(state).round, old(queued), s, q, state, queued);
        SeenStays(s.certs, state.certs, waiting);
        if i > 0 && old(hash in proposes) {
          StaysCommitted(net, old(state).chain, hash, waiting[0].1, s, state);
        }
        if state.halted {
          return;
        }
      }
    }

    static lemma SeenStays(certs: Certs, certs': Certs, waiting: seq<(nat, Hash)>)
      requires certs <= certs' && forall j | 0 <= j < |waiting| :: Seen(certs, waiting[j].1)
      ensures forall j | 0 <= j < |waiting| :: Seen(certs', waiting[j].1)
    {
    }

    /** Executes a propose and commits it, or panics where the source would. */
    method CommitPropose(hash: Hash, blockHash: Hash)
      requires Valid() && !state.halted && Seen(state.certs, blockHash)
      modifies this
      ensures Valid() && Advanced() && Timely() && QueueKept()
      ensures old(hash !in proposes) ==> state.halted && state.chain == old(state).chain
      ensures old(hash in proposes) ==> CommittedOrHalted(net, old(state).chain, hash, blockHash, state) && Left()
      ensures old(queued == [] && hash in proposes) ==> BeganIfAgreed(hash, blockHash)
      decreases |queued|, 4, 0
    {
      hide Recorded, Late, Consistent, Expected, Held, Seen, MakeBlock, Tables;
      if hash !in proposes {
        Panic();
        return;
      }
      var ours := Execute(hash);
      if ours != blockHash {
        Panic();
        return;
      }
      Commit(ours);
    }

    /** What an authentic prevote of this height does: it counts, and a majority with it for a
        complete propose locks the node. */
    twostate predicate PrevoteTaken(m: Message)
      requires m.Prevote?
      reads this
    {
      var hash, counted := m.proposeHash, AddPrevote(net, old(state), m);
      var decided :=
        && !counted.halted && HasMajority(net, counted, Voters(counted.prevotes, m.round, hash))
        && hash in old(proposes) && old(proposes)[hash].unknownTxs == {};
      && (Left() || m.validator in Voters(state.prevotes, m.round, hash))
      && if decided && old(state).lockedRound < m.round then
           && (m.round <= old(state).round ==> Left() || LockedAt(hash, m.round))
           && (old(Ready(hash, m.round)) ==> Outcome(old(Now()).(state := counted), hash, m.round))
         else state == counted && OnlyVoted()
    }

    lemma VoteStays(s: NodeState, m: Message)
      requires m.Prevote? && Grows(s, state) && m.validator in Voters(s.prevotes, m.round, m.proposeHash)
      ensures state.halted || |s.chain| < |state.chain| || m.validator in Voters(state.prevotes, m.round, m.proposeHash)
    {
    }

    /** Votes have been counted, and nothing else has changed. */
    twostate predicate OnlyVoted()
      reads this
    {
      && sent == old(sent) && sentProposes == old(sentProposes) && queued == old(queued)
      && proposes == old(proposes) && unknownProposes == old(unknownProposes) && transactions == old(transactions)
    }

    /** `handle_prevote`. */
    method HandlePrevote(m: Message)
      requires Valid() && !state.halted && m in received && m.Prevote? && Authentic(net, state, m)
      requires m.round <= state.round
      modifies this
      ensures Valid() && Advanced() && Timely() && QueueKept() && PrevoteTaken(m)
      ensures Settled(net, state, m)
      decreases |queued|, 8
    {
      hide Recorded, Late, Consistent, Expected, Held, Outcome, AddPrevote, Grows, HasMajority;
      PrevoteCounted(net, state, m);
      var hasConsensus := AddPrevoteMessage(m);
      HeldSame(net, state, queued);
      ghost var history0, actions0, s := history, actions, state;
      var complete := m.proposeHash in proposes && proposes[m.proposeHash].unknownTxs == {};
      if hasConsensus && complete {
        HasMajorityPrevotes(m.round, m.proposeHash);
        HasGrown(history0, actions0, received);
        VoteStays(s, m);
      }
    }

    /** What an authentic precommit of this height does: it counts, and a majority with it commits
        the block of a complete propose or waits for an unknown one. */
    twostate predicate PrecommitTaken(m: Message)
      requires m.Precommit?
      reads this
    {
      var hash, counted := m.proposeHash, AddPrecommit(net, old(state), m);
      var decided := !counted.halted && HasMajority(net, counted, Voters(counted.precommits, m.round, m.blockHash));
      && (Left() || m.validator in Voters(state.precommits, m.round, m.blockHash))
      && if decided && hash in old(proposes) && old(proposes)[hash].unknownTxs == {} then
           && CommittedOrHalted(net, old(state).chain, hash, m.blockHash, state)
           && (old(queued) == [] ==> BeganIfAgreed(hash, m.blockHash))
         else if decided && hash !in old(proposes) then
           && state == counted && sent == old(sent) && queued == old(queued)
           && hash in unknownProposes && (m.round, m.blockHash) in unknownProposes[hash]
         else state == counted && OnlyVoted()
    }

    /** `handle_precommit`. */
    method HandlePrecommit(m: Message)
      requires Valid() && !state.halted && m in received && m.Precommit? && Authentic(net, state, m)
      requires m.round <= state.round
      modifies this
      ensures Valid() && Advanced() && Timely() && QueueKept() && PrecommitTaken(m)
      ensures Settled(net, state, m)
      decreases |queued|, 8
    {
      hide Recorded, Late, Consistent, Expected, Held, AddPrecommit, Tables;
      PrecommitCounted(net, state, m);
      var hasConsensus := AddPrecommitMessage(m);
      HeldSame(net, state, queued);
      if hasConsensus {
        HasMajorityPrecommits(m.round, m.proposeHash, m.blockHash);
      }
    }

    /** `verify_precommits`: enough precommits, not too many, from different validators, each
        signed by its validator, for this block, this height and one round. */
    method VerifyPrecommits(ps: seq<Message>, blockHash: Hash) returns (ok: bool)
      requires forall i | 0 <= i < |ps| :: ps[i].Precommit?
      ensures ok == ValidCertificate(net, state, ps, blockHash)
      ensures var keys := net.validators(state.chain);
              ok <==>
                && 3 * |ps| > 2 * |keys| && |ps| <= |keys|
                && (forall i | 0 <= i < |ps| ::
                      && ps[i].height == |state.chain| && ps[i].validator < |keys|
                      && ps[i].signer == keys[ps[i].validator]
                      && ps[i].blockHash == blockHash && ps[i].round == ps[0].round)
                && (forall i, j | 0 <= i < j < |ps| :: ps[i].validator != ps[j].validator)
    {
      var keys := net.validators(state.chain);
      if |ps| < MajorityCount(|keys|) || |ps| > |keys| {
        return false;
      }
      var voters: set<nat> := {};
      var voteRound := MessageRound(ps[0]);
      for i := 0 to |ps|
        invariant voters == set j | 0 <= j < i :: ps[j].validator
        invariant forall j | 0 <= j < i ::
            Authentic(net, state, ps[j]) && ps[j].blockHash == blockHash && ps[j].round == voteRound
        invariant forall j, k | 0 <= j < k < i :: ps[j].validator != ps[k].validator
      {
        if ps[i].validator in voters {
          var j :| 0 <= j < i && ps[j].validator == ps[i].validator;
          assert MessageValidator(ps[j]) == MessageValidator(ps[i]);
          return false;
        }
        voters := voters + {ps[i].validator};
        if !Authentic(net, state, ps[i]) || ps[i].blockHash != blockHash || ps[i].round != voteRound {
          return false;
        }
      }
      return true;
    }

    /** `add_transaction`: the proposes that have all their transactions now, whether or not
        this transaction was the last one; a full pool only takes transactions that a known
        propose or a block needs. */
    method AddTransaction(tx: TxId, highPriority: bool) returns (full: seq<(Hash, nat)>)
      requires Valid() && !Committed(state.chain, tx)
      modifies this`proposes, this`transactions
      ensures Valid() && Advanced() && Timely() && queued == old(queued) && state == old(state) && blocks == old(blocks)
      ensures proposes == WithoutTx(old(proposes), tx) && ListsFull(proposes, full)
      ensures var needed := highPriority || exists h | h in old(proposes) :: tx in old(proposes)[h].unknownTxs;
              var refused := |old(transactions)| >= txPoolCapacity && !needed;
              transactions == if refused then old(transactions) else old(transactions) + {tx}
    {
      hide Recorded, Late, Consistent, Expected, ValidatorId, ListsFull;
      var needed := highPriority || exists h | h in proposes :: tx in proposes[h].unknownTxs;
      MoreTransactions(net, TheBooks(), tx);
      proposes := WithoutTx(proposes, tx);
      full := ListFull();
      if |transactions| >= txPoolCapacity && !needed {
        return;
      }
      transactions := transactions + {tx};
    }

    method ListFull() returns (full: seq<(Hash, nat)>)
      ensures ListsFull(proposes, full)
    {
      full := [];
      var rest := proposes.Keys;
      while rest != {}
        invariant rest <= proposes.Keys
        invariant forall i | 0 <= i < |full| ::
            full[i].0 in proposes && proposes[full[i].0].unknownTxs == {}
            && full[i].1 == proposes[full[i].0].propose.round
        invariant forall h | h in proposes && h !in rest && proposes[h].unknownTxs == {} ::
                    (h, proposes[h].propose.round) in full
        decreases |rest|
      {
        var h :| h in rest;
        rest := rest - {h};
        if proposes[h].unknownTxs == {} {
          full := full + [(h, proposes[h].propose.round)];
        }
      }
    }

    // ----- Events from outside -----

    method SetClock(time: int)
      requires Valid()
      modifies this`clock
      ensures Valid() && clock == time
    {
      clock := time;
    }

    /** A consensus message arrives. */
    method ReceiveConsensus(msg: Message)
      requires Valid()
      modifies this
      ensures Valid() && old(actions) <= actions && received == old(received) + {msg} && Timely() && QueueHeld()
      ensures if old(state).halted then Untouched() else Taken(msg)
      ensures delivered == old(delivered)
                         + if !old(state).halted && MessageHeight(msg) <= |old(state).chain| + 1 then [msg] else []
      ensures MessageHeight(msg) <= |old(state).chain| + 1 ==> msg in queued || Settled(net, state, msg)
    {
      hide Recorded, Late, Consistent, Expected, Held, Settled, Voted, Outcome, HasMajority, AddPrevote,
           AddPrecommit, Acceptable, Authentic, Tables;
      Receive(msg);
      HeldSame(net, state, queued);
      StoppedSettles(msg);
      if !state.halted {
        HandleConsensus(msg);
      }
    }

    /** Notes that a message has arrived. */
    ghost method Receive(msg: Message)
      requires Valid()
      modifies this`received, this`delivered
      ensures Valid() && received == old(received) + {msg}
      ensures delivered == old(delivered)
                         + if !state.halted && MessageHeight(msg) <= |state.chain| + 1 then [msg] else []
    {
      hide IsHistory, Consistent;
      received := received + {msg};
      delivered := delivered + if !state.halted && MessageHeight(msg) <= |state.chain| + 1 then [msg] else [];
    }

    lemma StoppedSettles(msg: Message)
      ensures state.halted ==> Settled(net, state, msg)
    {
    }

    /** A valid transaction that is neither in the pool nor committed. */
    ghost predicate NewTx(tx: TxId)
      reads this
    {
      !state.halted && tx !in transactions && !Committed(state.chain, tx) && verifyTx(tx)
    }

    /** A network of this validator alone, which has not voted at this height, with nothing waiting
        and all known proposes of the current round. */
    ghost predicate Quiet()
      reads this
    {
      && (forall chain :: net.validators(chain) == [key]) && queued == [] && unknownProposes == map[]
      && 0 < state.round && state.lockedRound == 0 && state.ourPrevotes == map[] && state.ourPrecommits == map[]
      && forall h | h in proposes :: proposes[h].propose.round == state.round
    }

    lemma QuietIsAlone(full: seq<(Hash, nat)>)
      requires Tables() && Quiet() && ListsFull(proposes, full)
      ensures AllAlone(full)
    {
      hide Consistent, Expected;
      SoleValidator(net.validators(state.chain), key);
    }

    /** Moreover two of the proposes wait for the transaction at most. */
    ghost predicate Crowded(tx: TxId)
      reads this
    {
      && Quiet()
      && exists h1, h2 | h1 in proposes && h2 in proposes ::
           h1 != h2 && proposes[h1].unknownTxs <= {tx} && proposes[h2].unknownTxs <= {tx}
    }

    ghost predicate CompletesNone(tx: TxId)
      reads this
    {
      forall h | h in proposes :: !(proposes[h].unknownTxs <= {tx})
    }

    /** A known propose waits for the transaction. */
    predicate Needed(tx: TxId)
      reads this
    {
      exists h | h in proposes :: tx in proposes[h].unknownTxs
    }

    /** The pool with the transaction, unless it is full and no propose needs the transaction. */
    twostate predicate Pooled(tx: TxId)
      reads this
    {
      transactions == old(transactions)
                    + if |old(transactions)| < txPoolCapacity || old(Needed(tx)) then {tx} else {}
    }

    /** The transaction has arrived, and nothing else has happened. */
    twostate predicate OnlyArrived(tx: TxId)
      reads this
    {
      && state == old(state) && sent == old(sent) && sentProposes == old(sentProposes) && queued == old(queued)
      && unknownProposes == old(unknownProposes) && proposes == WithoutTx(old(proposes), tx) && Pooled(tx)
    }

    /** What a transaction does: a new one enters the pool and no propose waits for it any longer.
        If a propose is complete then, an unlocked node that has not voted prevotes for one. */
    twostate predicate TxTaken(tx: TxId)
      reads this
    {
      if !old(NewTx(tx)) then Untouched()
      else if old(CompletesNone(tx)) then OnlyArrived(tx)
      else
        && (Left() || (Pooled(tx) && forall h | h in proposes :: tx !in proposes[h].unknownTxs))
        && (old(validatorId.Some? && state.lockedRound == 0 && state.ourPrevotes == map[]) ==>
              && |old(sent)| < |sent|
              && var m := sent[|old(sent)|];
                 && m.Prevote? && m.proposeHash in old(proposes) && old(proposes)[m.proposeHash].unknownTxs <= {tx}
                 && m.validator == old(validatorId).value && m.height == |old(state).chain|
                 && m.signer == old(state).key)
    }

    /** `handle_tx`. */
    method HandleTx(tx: TxId)
      requires Valid()
      modifies this
      ensures Valid() && Advanced() && QueueHeld() && TxTaken(tx)
      ensures LateForKnown() && (state.chain == old(state).chain ==> Timely())
      ensures old(NewTx(tx) && Crowded(tx)) ==> !Timely()
    {
      hide Recorded, Late, Consistent, Expected, Held, AddedFor, AllAlone, Crowded, Tables, Traced, CompletesNone,
           Committed;
      if state.halted || tx in transactions || Committed(state.chain, tx) || !verifyTx(tx) {
        NoneAdded(Late(sent), proposes.Keys);
        HeldSame(net, state, queued);
        return;
      }
      HandleNewTx(tx);
    }

    /** A transaction that is not known yet. */
    method HandleNewTx(tx: TxId)
      requires Valid() && NewTx(tx)
      modifies this
      ensures Valid() && Advanced() && QueueHeld() && TxTaken(tx)
      ensures LateForKnown() && (state.chain == old(state).chain ==> Timely())
      ensures old(Crowded(tx)) ==> !Timely()
    {
      hide Recorded, Late, Consistent, Expected, Held, AddedFor, AllAlone, Crowded, Tables, ListsFull, Traced,
           Untouched, Committed;
      var full := TakeTransaction(tx);
      FirstFull(old(proposes), full, tx);
      HandleAllFull(full);
    }

    /** `add_transaction` for a transaction from the network. */
    method TakeTransaction(tx: TxId) returns (full: seq<(Hash, nat)>)
      requires Valid() && !Committed(state.chain, tx)
      modifies this`proposes, this`transactions
      ensures Valid() && Advanced() && Timely() && proposes == WithoutTx(old(proposes), tx) && Pooled(tx)
      ensures ListsFull(proposes, full)
      ensures forall j | 0 <= j < |full| ::
                full[j].0.ProposeHash? && full[j].0.propose.round == full[j].1 && full[j].0 in proposes
      ensures old(Crowded(tx)) ==> |full| >= 2 && AllAlone(full)
    {
      hide Recorded, Late, Consistent, Expected, AllAlone, ListsFull;
      full := AddTransaction(tx, false);
      FullAreKnown(full);
      if old(Crowded(tx)) {
        TwoFull(old(proposes), full, tx);
        QuietIsAlone(full);
      }
    }

    lemma FullAreKnown(full: seq<(Hash, nat)>)
      requires Valid() && ListsFull(proposes, full)
      ensures forall j | 0 <= j < |full| ::
                full[j].0.ProposeHash? && full[j].0.propose.round == full[j].1 && full[j].0 in proposes
    {
      hide Consistent, Expected, Recorded;
      forall j | 0 <= j < |full|
        ensures full[j].0.ProposeHash? && full[j].0.propose.round == full[j].1 && full[j].0 in proposes
      {
        KnownIsCurrent(net, TheBooks(), full[j].0);
      }
    }

    ghost predicate AllAlone(full: seq<(Hash, nat)>)
      reads this
    {
      (forall chain :: net.validators(chain) == [key]) && forall j | 0 <= j < |full| :: Alone(full[j].0, full[j].1)
    }

    /** Late prevotes sent since are for proposes that were known then. */
    twostate predicate LateForKnown()
      reads this
    {
      AddedFor(Late(old(sent)), Late(sent), old(proposes).Keys)
    }

    /** Handles proposes that have become complete; committing one makes the others stale. */
    method HandleAllFull(full: seq<(Hash, nat)>)
      requires Valid() && !state.halted
      requires forall j | 0 <= j < |full| ::
                 full[j].0.ProposeHash? && full[j].0.propose.round == full[j].1 && full[j].0 in proposes
      modifies this
      ensures Valid() && Advanced() && QueueHeld() && (Left() || SameTables())
      ensures LateForKnown() && (state.chain == old(state).chain ==> Timely())
      ensures |full| >= 2 && old(AllAlone(full)) ==> !Timely()
      ensures full == [] ==> unchanged(this)
      ensures full != [] && old(MayPrevote(full[0].1)) ==> Prevotes(full[0].1, full[0].0)
    {
      hide Recorded, Late, Consistent, Expected, Held, Grows, AddedFor, StillKnown, Alone, Tables, OwnPrevote;
      NotStale(full);
      HeldSame(net, state, queued);
      NoneAdded(Late(sent), proposes.Keys);
      for i := 0 to |full|
        invariant Valid() && Advanced() && QueueHeld() && !state.halted && (Left() || SameTables())
        invariant LateForKnown() && (state.chain == old(state).chain ==> Timely())
        invariant old(AllAlone(full)) ==>
                    && (i == 0 ==> unchanged(this)) && (i == 1 ==> Moved())
                    && (i >= 2 ==> |Late(old(sent))| < |Late(sent)|)
        invariant StillKnown(full, i) && (i == 0 ==> unchanged(this))
        invariant i > 0 && old(MayPrevote(full[0].1)) ==> Prevotes(full[0].1, full[0].0)
      {
        OnlyValidator();
        ghost var history0, actions0, s, q, late := history, actions, state, queued, Late(sent);
        HandleOneFull(full, i);
        AddedTwice(Late(old(sent)), late, Late(sent), {full[i].0}, old(proposes).Keys);
        HasGrown(history0, actions0, received);
        HeldTwice(net, |old(state).chain|, old(state).round, old(queued), s, q, state, queued);
        if state.halted {
          return;
        }
      }
    }

    /** From entry `i` on the proposes are known or of a past height. */
    ghost predicate StillKnown(full: seq<(Hash, nat)>, i: nat)
      reads this
    {
      forall j | i <= j < |full| ::
        && full[j].0.ProposeHash? && full[j].0.propose.round == full[j].1
        && (Stale(state, full[j].0) || full[j].0 in proposes)
    }

    lemma NotStale(full: seq<(Hash, nat)>)
      requires Valid()
      requires forall j | 0 <= j < |full| ::
                 full[j].0.ProposeHash? && full[j].0.propose.round == full[j].1 && full[j].0 in proposes
      ensures StillKnown(full, 0)
      ensures forall j | 0 <= j < |full| :: full[j].0.propose.height == |state.chain|
    {
      forall j | 0 <= j < |full| ensures full[j].0.propose.height == |state.chain| {
        KnownIsCurrent(net, TheBooks(), full[j].0);
      }
    }

    lemma OnlyValidator()
      requires Valid()
      ensures net.validators(state.chain) == [key] ==> validatorId == Some(0)
    {
      SoleValidator(net.validators(state.chain), key);
    }

    /** One turn of the loop. */
    method HandleOneFull(full: seq<(Hash, nat)>, i: nat)
      requires Valid() && !state.halted && i < |full| && StillKnown(full, i)
      modifies this
      ensures Valid() && Advanced() && QueueHeld() && StillKnown(full, i + 1) && (Left() || SameTables())
      ensures old(MayPrevote(full[i].1)) ==> Prevotes(full[i].1, full[i].0)
      ensures AddedFor(Late(old(sent)), Late(sent), {full[i].0})
      ensures if old(SendsLate(full[i].0, full[i].1)) then |Late(old(sent))| < |Late(sent)| else Timely()
      ensures old(Alone(full[i].0, full[i].1)) ==> Moved()
    {
      hide Recorded, Late, Consistent, Expected, Held, SendPrevote, Locking, Commits, HasMajority, AddedFor;
      ghost var before := state;
      KnownBecomesStale(proposes.Keys);
      NoneAdded(Late(sent), {full[i].0});
      if validatorId.Some? {
        OneMoreFor(Late(sent), Late(sent), {full[i].0}, OwnPrevote(state, validatorId.value, full[i].1, full[i].0));
      }
      HasFullPropose(full[i].0, full[i].1);
      if old(Alone(full[i].0, full[i].1)) {
        SoleVote(net, before, full[i].1, full[i].0, old(clock));
      }
    }

    /** Every known propose is of this height. */
    lemma KnownBecomesStale(hashes: set<Hash>)
      requires Valid() && hashes == proposes.Keys
      ensures forall h | h in hashes :: h.ProposeHash? && h.propose.height == |state.chain|
    {
      hide Consistent, Expected, Recorded;
      forall h | h in hashes ensures h.ProposeHash? && h.propose.height == |state.chain| {
        KnownIsCurrent(net, TheBooks(), h);
      }
    }

    /** `Whitelist::allow`: validators always, others when there is no list or they are on it. */
    predicate Allows(peer: Key)
      reads this
    {
      whitelist.None? || peer in Keys(net, state) || peer in whitelist.value
    }

    /** The block is sent to this node and signed by its sender; where there is a list of peers, the
        sender is a validator or on the list. */
    ghost predicate Delivered(envelope: Envelope)
      reads this
    {
      && envelope.recipient == key && envelope.signer == envelope.sender
      && (whitelist.Some? && envelope.sender !in whitelist.value ==> envelope.sender in net.validators(state.chain))
    }

    /** What a block does: one that is delivered, certified and can be built is appended; one that is
        not delivered or not certified changes nothing.  If another block comes of its transactions the
        node panics, and if they are not admissible it drops the block. */
    twostate predicate BlockTaken(envelope: Envelope, block: Block, ps: seq<Message>, txs: seq<TxId>)
      reads this
    {
      if !old(Delivered(envelope) && !state.halted && Certified(block, ps)) then Untouched()
      else if old(Buildable(block, txs)) then old(state).chain + [block] <= state.chain
      else sent == old(sent) && state == old(state).(halted := old(Admissible(txs)))
    }

    /** `handle_block`: a block with a certificate of precommits. */
    method HandleBlock(envelope: Envelope, block: Block, ps: seq<Message>, txs: seq<TxId>)
      requires Valid() && forall i | 0 <= i < |ps| :: ps[i].Precommit?
      modifies this
      ensures Valid() && old(actions) <= actions && Timely() && QueueHeld() && delivered == old(delivered)
      ensures received == old(received) + (set m | m in ps) && BlockTaken(envelope, block, ps, txs)
    {
      hide Recorded, Late, Consistent, Expected, Held;
      ReceiveAll(ps);
      HeldSame(net, state, queued);
      if envelope.recipient != key {
        return;
      }
      if !Allows(envelope.sender) {
        return;
      }
      if envelope.signer != envelope.sender {
        return;
      }
      AcceptBlock(block, ps, txs);
    }

    method ReceiveAll(ps: seq<Message>)
      requires Valid()
      modifies this`received
      ensures Valid() && received == old(received) + set m | m in ps
    {
      hide IsHistory, Consistent;
      received := received + set m | m in ps;
    }

    /** A block for this height with a majority of precommits. */
    ghost predicate Certified(block: Block, ps: seq<Message>)
      reads this
    {
      block.height == |state.chain| && block.prevHash == LastHash(state.chain)
      && ValidCertificate(net, state, ps, BlockHash(block))
    }

    /** The transactions are valid, and none of them is in a block yet. */
    ghost predicate Admissible(txs: seq<TxId>)
      reads this
    {
      forall i | 0 <= i < |txs| :: !Committed(state.chain, txs[i]) && verifyTx(txs[i])
    }

    /** The block is known already, or its transactions are admissible and give this block. */
    ghost predicate Buildable(block: Block, txs: seq<TxId>)
      reads this
    {
      || BlockHash(block) in blocks
      || (&& Admissible(txs)
          && block == Block(block.proposer, |state.chain|, txs, LastHash(state.chain), net.exec(state.chain, txs)))
    }

    method AcceptBlock(block: Block, ps: seq<Message>, txs: seq<TxId>)
      requires Valid() && forall i | 0 <= i < |ps| :: ps[i].Precommit? && ps[i] in received
      modifies this
      ensures Valid() && Advanced() && Timely() && QueueHeld()
      ensures old(!state.halted && Certified(block, ps) && Buildable(block, txs)) ==>
                old(state).chain + [block] <= state.chain
      ensures old(!state.halted && Certified(block, ps) && !Buildable(block, txs)) ==>
                sent == old(sent) && state == old(state).(halted := old(Admissible(txs)))
      ensures old(state.halted || !Certified(block, ps)) ==> Untouched()
    {
      hide Recorded, Late, Consistent, Expected, Held, Seen, ValidCertificate, Traced;
      HeldSame(net, state, queued);
      if state.halted || block.height != |state.chain| || block.prevHash != LastHash(state.chain) {
        return;
      }
      var blockHash := BlockHash(block);
      var certified := VerifyPrecommits(ps, blockHash);
      if !certified {
        return;
      }
      if blockHash !in blocks {
        var built := BuildBlock(block, txs);
        if !built {
          HeldSame(net, state, queued);
          return;
        }
      }
      StoredBlock(net, TheBooks(), blockHash);
      LearnCertificate(ps, blockHash);
      Commit(blockHash);
    }

    /** Executes the transactions of a received block and compares the result with it. */
    method BuildBlock(block: Block, txs: seq<TxId>) returns (ok: bool)
      requires Valid() && !state.halted
      modifies this
      ensures Valid() && Advanced() && Timely() && queued == old(queued) && state.chain == old(state).chain
      ensures state.round == old(state).round && (ok ==> state == old(state) && BlockHash(block) in blocks)
      ensures ok <==> old(Admissible(txs)) && MakeBlock(net, old(state).chain, block.proposer, txs) == block
      ensures !ok ==> sent == old(sent) && state == old(state).(halted := old(Admissible(txs)))
    {
      hide Recorded, Late, Consistent, Expected;
      ok := AdmitTransactions(txs);
      if !ok {
        return;
      }
      if MakeBlock(net, state.chain, block.proposer, txs) != block {
        Panic();
        return false;
      }
      StoreBlock(block);
    }

    method StoreBlock(block: Block)
      requires Valid() && block == MakeBlock(net, state.chain, block.proposer, block.txs)
      requires Unused(state.chain, block.txs)
      modifies this`blocks
      ensures Valid() && Advanced() && Timely() && BlockHash(block) in blocks
    {
      hide Recorded, Late, Consistent, Expected;
      MoreBlocks(net, TheBooks(), block);
      blocks := blocks[BlockHash(block) := block];
    }

    method AdmitTransactions(txs: seq<TxId>) returns (ok: bool)
      requires Valid()
      modifies this
      ensures Valid() && Advanced() && Timely() && queued == old(queued) && state == old(state) && blocks == old(blocks)
      ensures sent == old(sent) && ok == Admissible(txs) && (ok ==> forall tx | tx in txs :: tx in transactions)
    {
      hide Recorded, Late, Consistent, Expected;
      for i := 0 to |txs|
        invariant Valid() && Advanced() && Timely() && queued == old(queued) && state == old(state)
        invariant blocks == old(blocks)
        invariant sent == old(sent)
        invariant forall j | 0 <= j < i ::
                    !Committed(state.chain, txs[j]) && verifyTx(txs[j]) && txs[j] in transactions
      {
        if Committed(state.chain, txs[i]) || !verifyTx(txs[i]) {
          return false;
        }
        var _ := AddTransaction(txs[i], true);
      }
      return true;
    }

    method LearnCertificate(ps: seq<Message>, blockHash: Hash)
      requires Valid() && !state.halted && ValidCertificate(net, state, ps, blockHash)
      requires forall i | 0 <= i < |ps| :: ps[i] in received
      modifies this
      ensures Valid() && Advanced() && Timely() && queued == old(queued) && blocks == old(blocks) && !state.halted
      ensures Seen(state.certs, blockHash) && state.chain == old(state).chain && state.round == old(state).round
    {
      hide Recorded, Late, Consistent, Expected;
      MoreCerts(net, TheBooks(), state.certs + {(|state.chain|, MessageRound(ps[0]), blockHash)});
      ghost var c := (|state.chain|, MessageRound(ps[0]), blockHash);
      state := state.(certs := state.certs + {(|state.chain|, MessageRound(ps[0]), blockHash)});
      assert c in state.certs && c.2 == blockHash;
      Record(Action.LearnCertificate(ps, blockHash), old(state), sent);
    }

    /** The node is in a later round, and nothing else has changed. */
    twostate predicate OnlyRound(newRound: nat)
      reads this
    {
      && state == old(state).(round := newRound) && sent == old(sent) && queued == old(queued)
      && proposes == old(proposes) && unknownProposes == old(unknownProposes) && transactions == old(transactions)
    }

    /** The node is in the new round or has left the height.  A locked validator prevotes for its
        lock first; when there is no lock and nothing waits, only the round changes. */
    twostate predicate Entered(newRound: nat)
      reads this
    {
      && (Left() || newRound <= state.round)
      && (old(validatorId).Some? && old(state).lockedPropose.Some? ==>
            state.halted || Prevotes(newRound, old(state).lockedPropose.value))
      && (old(state.lockedPropose.None? && queued == []) ==> OnlyRound(newRound))
    }

    /** `handle_new_round`: a scheduled jump. */
    method HandleNewRound(height: nat, newRound: nat)
      requires Valid()
      modifies this
      ensures Valid() && Advanced() && Timely() && QueueHeld()
      ensures if old(!state.halted && height == |state.chain| && newRound > state.round) then Entered(newRound)
              else Untouched()
    {
      hide Recorded, Late, Consistent, Expected, Held;
      HeldSame(net, state, queued);
      if !state.halted && height == |state.chain| && newRound > state.round {
        ProcessNewRound(newRound);
      }
    }

    /** `handle_round_timeout`. */
    method HandleRoundTimeout(height: nat, r: nat)
      requires Valid()
      modifies this
      ensures Valid() && Advanced() && Timely() && QueueHeld()
      ensures if old(!state.halted && height == |state.chain| && r == state.round) then Entered(r + 1) else Untouched()
    {
      hide Recorded, Late, Consistent, Expected, Held;
      HeldSame(net, state, queued);
      if !state.halted && height == |state.chain| && r == state.round {
        ProcessNewRound(r + 1);
      }
    }

    /** `process_new_round`, in the round just entered. */
    method ProcessNewRound(newRound: nat)
      requires Valid() && !state.halted && newRound > state.round
      modifies this
      ensures Valid() && Advanced() && Timely() && QueueHeld() && Entered(newRound)
    {
      hide Recorded, Late, Consistent, Expected, Kept, OnlyEarly, Grows;
      StartRound(newRound);
      ghost var history0, actions0, s, q := history, actions, state, queued;
      HandleQueued();
      HasGrown(history0, actions0, received);
      KeptTwice(net, s, state, old(queued), q, queued);
    }

    /** What happens before the queue is handled. */
    method StartRound(newRound: nat)
      requires Valid() && !state.halted && newRound > state.round
      modifies this
      ensures Valid() && Advanced() && Timely() && (Left() || newRound <= state.round)
      ensures Kept(net, state, old(queued), queued)
      ensures old(validatorId).Some? && old(state).lockedPropose.Some? ==>
                state.halted || Prevotes(newRound, old(state).lockedPropose.value)
      ensures old(state).lockedPropose.None? ==> OnlyRound(newRound)
    {
      hide Recorded, Late, Consistent, Expected, Kept, OnlyEarly, Outcome;
      var hasMajority := EnterRound(newRound);
      KeptSame(net, state, queued);
      if hasMajority {
        HasMajorityPrevotes(newRound, state.lockedPropose.value);
      }
    }

    method HandleQueued()
      requires Valid()
      modifies this
      ensures Valid() && Advanced() && Timely() && (old(state).halted ==> state == old(state))
      ensures Kept(net, state, old(queued), queued) && OnlyEarly(|state.chain|, state.round, queued)
      ensures old(queued) == [] ==> unchanged(this)
    {
      hide Recorded, Late, Consistent, Expected, Kept, OnlyEarly, Settled;
      var msgs := queued;
      queued := [];
      NoneWait();
      assert msgs[..0] == [];
      for i := 0 to |msgs|
        invariant Valid() && Advanced() && Timely() && (old(state).halted ==> state == old(state))
        invariant Kept(net, state, msgs[..i], queued) && OnlyEarly(|state.chain|, state.round, queued)
        invariant Expected(msgs, received, |state.chain|)
        invariant old(queued) == [] ==> unchanged(this)
      {
        if state.halted {
          StoppedKeeps(msgs);
          return;
        }
        HandleWaiting(msgs, i);
      }
      assert msgs[..|msgs|] == msgs;
    }

    /** A running validator at this height and round, without a lock or a prevote. */
    ghost predicate MayPropose(height: nat, r: nat)
      reads this
    {
      && !state.halted && height == |state.chain| && r == state.round && state.lockedPropose.None?
      && validatorId.Some? && r !in state.ourPrevotes
    }

    /** The node has sent a propose and a prevote for it, and locks if that is a majority. */
    twostate predicate ProposeSent(r: nat)
      reads this
    {
      && |old(sentProposes)| < |sentProposes|
      && var p := sentProposes[|old(sentProposes)|];
         && Proposed(p, r) && Prevotes(r, ProposeHash(p))
         && (old(queued) == [] && 0 < r ==>
               var learned := old(state).(proposes := old(state).proposes + {ProposeHash(p)});
               Voted(old(Now()).(state := learned), ProposeHash(p), r))
    }

    /** `handle_propose_timeout`: a leader without a lock proposes from its pool and prevotes
        for its own propose. */
    method HandleProposeTimeout(height: nat, r: nat)
      requires Valid()
      modifies this
      ensures Valid() && Advanced() && Timely() && QueueHeld()
      ensures if old(MayPropose(height, r)) then ProposeSent(r) else Untouched()
    {
      hide Recorded, Late, Consistent, Expected, Held, Outcome, SendPrevote, HasMajority, Tables;
      HeldSame(net, state, queued);
      if state.halted || height != |state.chain| || r != state.round || state.lockedPropose.Some? {
        return;
      }
      if validatorId.None? || r in state.ourPrevotes {
        return;
      }
      Basics();
      var hash, hasMajority := ProposeNow(r);
      HeldSame(net, state, queued);
      if hasMajority {
        HasMajorityPrevotes(r, hash);
      }
    }

    /** A propose of the node for this round on top of its last block, with as many different
        transactions of its pool as the limit allows. */
    twostate predicate Proposed(p: Propose, r: nat)
      reads this
    {
      && old(validatorId) == Some(p.validator) && p.height == |old(state).chain| && p.round == r && p.signer == key
      && p.prevHash == LastHash(old(state).chain)
      && |p.txs| == (if txsBlockLimit < |old(transactions)| then txsBlockLimit else |old(transactions)|)
      && (forall tx | tx in p.txs :: tx in old(transactions))
      && (forall i, j | 0 <= i < j < |p.txs| :: p.txs[i] != p.txs[j])
    }

    /** Sends a propose and a prevote for it. */
    method ProposeNow(r: nat) returns (hash: Hash, hasMajority: bool)
      requires Valid() && MayPropose(|state.chain|, r)
      modifies this`state, this`actions, this`history, this`proposes, this`sentProposes, this`sent
      ensures Valid() && Advanced() && Timely() && !state.halted && state.chain == old(state).chain
              && state.round == old(state).round && state.lockedRound == old(state).lockedRound
      ensures hasMajority == Majority(Voters(state.prevotes, r, hash))
      ensures hash.ProposeHash? && sentProposes == old(sentProposes) + [hash.propose] && Proposed(hash.propose, r)
      ensures hash in proposes && proposes[hash].unknownTxs == {} && r in state.ourPrevotes
      ensures sent == old(sent) + [OwnPrevote(old(state), validatorId.value, r, hash)]
      ensures Effect(state, sent[|old(sent)|..])
           == SendPrevote(net, old(state).(proposes := old(state).proposes + {hash}), r, hash)
    {
      hide Recorded, Late, Consistent, Expected, SendPrevote;
      var txs := PickTransactions();
      var p := Propose(validatorId.value, |state.chain|, r, LastHash(state.chain), txs, key);
      PoolUnused(net, TheBooks(), txs);
      AddSelfPropose(p);
      hash := ProposeHash(p);
      hasMajority := BroadcastPrevote(r, hash, PrevoteFullPropose(hash, r));
    }

    /** `add_self_propose`, after broadcasting the propose. */
    method AddSelfPropose(p: Propose)
      requires Valid() && !state.halted && p.height == |state.chain| && p.round <= state.round
      requires Unused(state.chain, p.txs)
      modifies this`state, this`actions, this`history, this`proposes, this`sentProposes
      ensures Valid() && Advanced() && Timely() && sentProposes == old(sentProposes) + [p]
      ensures proposes == old(proposes)[ProposeHash(p) := ProposeState(p, {}, None)]
      ensures state == old(state).(proposes := old(state).proposes + {ProposeHash(p)})
    {
      hide Recorded, Late, Consistent, Expected;
      sentProposes := sentProposes + [p];
      if ProposeHash(p) in proposes {
        MoreProposes(net, TheBooks(), p, {});
        proposes := proposes[ProposeHash(p) := ProposeState(p, {}, None)];
        assert state.proposes + {ProposeHash(p)} == state.proposes;
      } else {
        LearnPropose(p, {});
      }
    }

    /** As many different transactions of the pool as the block limit allows. */
    method PickTransactions() returns (txs: seq<TxId>)
      ensures |txs| == if txsBlockLimit < |transactions| then txsBlockLimit else |transactions|
      ensures forall i | 0 <= i < |txs| :: txs[i] in transactions
      ensures forall i, j | 0 <= i < j < |txs| :: txs[i] != txs[j]
    {
      txs := [];
      var rest := transactions;
      while rest != {} && |txs| < txsBlockLimit
        invariant |txs| + |rest| == |transactions| && rest <= transactions && |txs| <= txsBlockLimit
        invariant forall i | 0 <= i < |txs| :: txs[i] in transactions && txs[i] !in rest
        invariant forall i, j | 0 <= i < j < |txs| :: txs[i] != txs[j]
        decreases |rest|
      {
        EmptyOrInhabited(rest);
        var tx :| tx in rest;
        rest := rest - {tx};
        txs := txs + [tx];
      }
    }
  }

  /** The handler of a validator that is alone in its network, in its first round. */
  method SoleHandler() returns (h: NodeHandler)
    ensures fresh(h) && h.Valid() && h.Quiet() && h.validatorId == Some(0) && h.key == 0 && h.txPoolCapacity == 10
    ensures h.state.chain == [] && h.state.round == 1 && h.proposes == map[] && h.transactions == {} && h.sent == []
    ensures !h.state.halted && forall tx :: h.verifyTx(tx)
  {
    hide Recorded, Late, Consistent, Expected;
    var net := Net([], _ => [0], (_, _) => 0);
    h := new NodeHandler(net, 0, _ => true, 10, 10, None);
    SoleValidator(net.validators([]), 0);
    h.HandleNewRound(0, 1);
  }

  const FIRST := Propose(0, 0, 1, LastHash([]), [7], 0)
  const SECOND := Propose(0, 0, 1, LastHash([]), [8, 7], 0)

  /** Two proposes of one round that wait for the same transaction. */
  method TwoWaiting() returns (h: NodeHandler)
    ensures fresh(h) && h.Valid() && h.Quiet() && !h.state.halted && h.state.chain == [] && 7 !in h.transactions
    ensures h.verifyTx(7) && Late(h.sent) == [] && ProposeHash(FIRST) in h.proposes && ProposeHash(SECOND) in h.proposes
    ensures h.proposes[ProposeHash(FIRST)].unknownTxs == h.proposes[ProposeHash(SECOND)].unknownTxs == {7}
  {
    hide IsHistory, InputsKnown, Late, AddedFor, NodeHandler.Tables;
    h := SoleHandler();
    EmptyLate();
    Wait(h, FIRST, {7});
    Wait(h, SECOND, {7, 8});
    assert h.proposes[ProposeHash(FIRST)].unknownTxs == {7} && h.proposes[ProposeHash(SECOND)].unknownTxs == {7, 8};
    h.HandleTx(8);
  }

  /** When the transaction arrives in a network of one validator, one of the proposes is committed,
      and the validator prevotes for the other at the next height. */
  method LatePrevote() returns (h: NodeHandler)
    ensures h.Valid() && Late(h.sent) != []
  {
    hide Recorded, Late, Consistent, Expected, AddedFor;
    h := TwoWaiting();
    assert h.Crowded(7) by {
      assert ProposeHash(FIRST) != ProposeHash(SECOND);
    }
    h.HandleTx(7);
  }

  /** A propose arrives before its transactions. */
  method Wait(h: NodeHandler, p: Propose, unknown: set<TxId>)
    requires h.Valid() && h.Quiet() && !h.state.halted && h.state.chain == [] && h.state.round == 1
    requires h.key == 0 && h.transactions == {}
    requires p == Propose(0, 0, 1, LastHash([]), p.txs, 0) && ProposeHash(p) !in h.proposes
    requires unknown == (set tx | tx in p.txs) && unknown != {}
    modifies h
    ensures h.Valid() && h.Quiet() && !h.state.halted && h.state.chain == [] && h.state.round == 1
    ensures h.transactions == {} && h.sent == old(h.sent)
    ensures h.proposes == old(h.proposes)[ProposeHash(p) := ProposeState(p, unknown, None)]
  {
    hide Recorded, Late, Consistent, Expected;
    assert (set tx | tx in p.txs && tx !in h.transactions) == unknown;
    h.HandlePropose(p);
  }
}
