/**
 The atomic actions as the handler makes them: which of its updates are which action, what a
 lock leads to, and which of the prevotes it sends are late.
 */
module HandlerSteps {
  import opened Wrappers
  import opened ConsensusModel
  import opened NodeBooks

  ghost predicate IsStep(net: Net, s: NodeState, a: Action, s': NodeState, sent: seq<Message>, sent': seq<Message>) {
    Enabled(net, s, a) && var e := Apply(net, s, a); s' == e.state && sent' == sent + e.sent
  }

  lemma LockStep(net: Net, s: NodeState, hash: Hash, round: nat, time: int, s': NodeState, sent: seq<Message>,
      sent': seq<Message>)
    requires !s.halted && s.lockedRound < round <= s.round && hash in s.proposes && hash.ProposeHash?
    requires HasMajority(net, s, Voters(s.prevotes, round, hash))
    requires var e := SendPrecommit(net, s.(lockedRound := round, lockedPropose := Some(hash)), round, hash, time);
             s' == e.state && sent' == sent + e.sent
    ensures IsStep(net, s, Action.LockOn(hash, round, time), s', sent, sent')
  {
  }

  lemma PrevoteStep(net: Net, s: NodeState, a: Action, round: nat, hash: Hash, id: nat, sent: seq<Message>)
    requires a == PrevoteFullPropose(hash, round) || (a.PrevoteInLock? && a.hash == hash && a.round == round)
    requires Enabled(net, s, a) && ValidatorId(net, s) == Some(id)
    ensures var m := OwnPrevote(s, id, round, hash);
            && IsStep(net, s, a, AddPrevote(net, s, m), sent, sent + [m])
            && AddPrevote(net, s, m) == s.(ourPrevotes := AddPrevote(net, s, m).ourPrevotes,
                                           prevotes := AddPrevote(net, s, m).prevotes)
            && !s.halted && SendPrevote(net, s, round, hash) == Effect(AddPrevote(net, s, m), [m])
  {
  }

  lemma NoPrevote(net: Net, s: NodeState, round: nat, hash: Hash)
    requires ValidatorId(net, s).None?
    ensures SendPrevote(net, s, round, hash) == Effect(s, [])
  {
  }

  lemma VoteStep(net: Net, s: NodeState, m: Message, sent: seq<Message>)
    requires !s.halted && Authentic(net, s, m)
    ensures m.Prevote? ==> IsStep(net, s, Action.RecvPrevote(m), AddPrevote(net, s, m), sent, sent)
    ensures m.Precommit? ==> IsStep(net, s, Action.RecvPrecommit(m), AddPrecommit(net, s, m), sent, sent)
  {
    hide Authentic, AddPrevote, AddPrecommit;
  }

  /** Counting a vote changes the votes and nothing else, unless it panics. */
  lemma PrevoteCounted(net: Net, s: NodeState, m: Message)
    requires m.Prevote?
    ensures var t, r, hash := AddPrevote(net, s, m), m.round, m.proposeHash;
            && t == s.(halted := t.halted, ourPrevotes := t.ourPrevotes, prevotes := t.prevotes)
            && (s.halted ==> t.halted)
            && s.ourPrevotes.Keys <= t.ourPrevotes.Keys
            && (t.halted || Voters(t.prevotes, r, hash) == Voters(s.prevotes, r, hash) + {m.validator})
  {
  }

  lemma PrecommitCounted(net: Net, s: NodeState, m: Message)
    requires m.Precommit?
    ensures var t, r, hash := AddPrecommit(net, s, m), m.round, m.blockHash;
            && t == s.(halted := t.halted, ourPrecommits := t.ourPrecommits, precommits := t.precommits,
                       certs := t.certs)
            && s.certs <= t.certs && (s.halted ==> t.halted)
            && (t.halted || Voters(t.precommits, r, hash) == Voters(s.precommits, r, hash) + {m.validator})
            && (!t.halted && HasMajority(net, t, Voters(t.precommits, r, hash)) ==> (|s.chain|, r, hash) in t.certs)
  {
    hide MajorityCount;
  }

  lemma RoundStep(net: Net, s: NodeState, newRound: nat, sent: seq<Message>)
    requires !s.halted && s.round < newRound
    ensures var entered := s.(round := newRound);
            var e := if s.lockedPropose.Some? then SendPrevote(net, entered, newRound, s.lockedPropose.value)
                     else Effect(entered, []);
            IsStep(net, s, Action.EnterRound(newRound), e.state, sent, sent + e.sent)
  {
    hide SendPrevote;
  }

  /** The own precommit of a validator. */
  lemma PrecommitSent(net: Net, s: NodeState, id: nat, r: nat, hash: Hash, time: int)
    requires hash.ProposeHash? && ValidatorId(net, s) == Some(id) && !HaveIncompatiblePrevotes(s)
    ensures var bh := BlockHash(MakeBlock(net, s.chain, hash.propose.validator, hash.propose.txs));
            var m := Precommit(id, |s.chain|, r, hash, bh, time, s.key);
            var t := AddPrecommit(net, s, m);
            SendPrecommit(net, s, r, hash, time) == Effect(t, if t.halted then [] else [m])
  {
    hide AddPrecommit;
  }

  /** A lock and its precommit change nothing else. */
  lemma LockEffect(net: Net, s: NodeState, round: nat, hash: Hash, time: int)
    requires hash.ProposeHash?
    ensures var t := SendPrecommit(net, s, round, hash, time).state;
            && t.key == s.key && t.chain == s.chain && t.round == s.round && t.proposes == s.proposes
            && t.lockedRound == s.lockedRound && t.lockedPropose == s.lockedPropose
            && t.prevotes == s.prevotes && t.ourPrevotes == s.ourPrevotes && s.certs <= t.certs
  {
  }

  lemma CommitStep(net: Net, s: NodeState, b: Block, sent: seq<Message>)
    requires !s.halted && b == MakeBlock(net, s.chain, b.proposer, b.txs) && Seen(s.certs, BlockHash(b))
    ensures IsStep(net, s, Action.Commit(b), NewHeight(s, b), sent, sent)
  {
  }

  lemma VotersGrow(before: Votes, after: Votes, r: nat, hash: Hash)
    requires Voters(before, r, hash) <= Voters(after, r, hash)
    ensures |Voters(before, r, hash)| <= |Voters(after, r, hash)|
  {
    assert Voters(after, r, hash) == Voters(before, r, hash) + (Voters(after, r, hash) - Voters(before, r, hash));
  }

  lemma EmptyOrInhabited(s: set<TxId>)
    ensures s == {} || exists x: TxId :: x in s
  {
    if forall x: TxId :: x !in s {
      assert s == {};
    }
  }

  // ----- Where a lock leads -----

  /** The block that a propose makes on top of a chain. */
  function BlockOver(net: Net, chain: seq<Block>, p: Propose): Block {
    Block(p.validator, |chain|, p.txs, LastHash(chain), net.exec(chain, p.txs))
  }

  /** Locking on the propose in this round, with the precommit that goes with it. */
  ghost function Locking(net: Net, s: NodeState, r: nat, hash: Hash, time: int): Effect
    requires hash.ProposeHash?
  {
    SendPrecommit(net, s.(lockedRound := r, lockedPropose := Some(hash)), r, hash, time)
  }

  /** A precommit was sent, and with it there is a majority. */
  ghost predicate Commits(net: Net, e: Effect, r: nat, blockHash: Hash) {
    e.sent != [] && HasMajority(net, e.state, Voters(e.state.precommits, r, blockHash))
  }

  /** A validator that locks sends its precommit exactly when no prevote of its own, in a round after
      the one it locks in, is for another propose. */
  lemma LockSends(net: Net, s: NodeState, id: Option<nat>, r: nat, hash: Hash, time: int)
    requires hash.ProposeHash? && ValidatorId(net, s) == id && !s.halted
    ensures var e := Locking(net, s, r, hash, time);
            id.Some? && !e.state.halted ==>
              if exists q | r < q <= s.round && q in s.ourPrevotes && s.ourPrevotes[q].Prevote? ::
                   s.ourPrevotes[q].proposeHash != hash
              then e.sent == []
              else e.sent == [Precommit(id.value, |s.chain|, r, hash,
                                BlockHash(BlockOver(net, s.chain, hash.propose)), time, s.key)]
  {
  }

  lemma OneIsMajority(voters: set<nat>, voter: nat)
    requires voter in voters
    ensures |voters| >= MajorityCount(1)
  {
    assert {voter} <= voters;
    var rest := voters - {voter};
    assert voters == rest + {voter};
  }

  lemma SoleValidator(keys: seq<Key>, key: Key)
    ensures keys == [key] ==> FindValidator(keys, key) == Some(0)
  {
  }

  /** The prevote of the only validator is a majority, and so is its precommit. */
  lemma SoleVote(net: Net, s: NodeState, r: nat, hash: Hash, time: int)
    requires hash.ProposeHash? && |net.validators(s.chain)| == 1 && ValidatorId(net, s).Some? && !s.halted
    requires s.lockedRound == 0 && r == s.round && s.ourPrevotes == map[] && s.ourPrecommits == map[]
    ensures var e := SendPrevote(net, s, r, hash);
            && e.state.chain == s.chain && HasMajority(net, e.state, Voters(e.state.prevotes, r, hash))
            && Commits(net, Locking(net, e.state, r, hash, time), r,
                       BlockHash(MakeBlock(net, s.chain, hash.propose.validator, hash.propose.txs)))
  {
    var id := ValidatorId(net, s).value;
    var e := SendPrevote(net, s, r, hash);
    OneIsMajority(Voters(e.state.prevotes, r, hash), id);
    var l := Locking(net, e.state, r, hash, time);
    var bh := BlockHash(MakeBlock(net, s.chain, hash.propose.validator, hash.propose.txs));
    OneIsMajority(Voters(l.state.precommits, r, bh), id);
  }

  /** The block of the propose is the agreed one and was appended, or it is not and the node
      panicked. */
  ghost predicate CommittedOrHalted(net: Net, chain: seq<Block>, hash: Hash, blockHash: Hash, s: NodeState) {
    && hash.ProposeHash?
    && var b := BlockOver(net, chain, hash.propose);
       if BlockHash(b) == blockHash then chain + [b] <= s.chain else s.halted && s.chain == chain
  }

  lemma StaysCommitted(net: Net, chain: seq<Block>, hash: Hash, blockHash: Hash, s: NodeState, s': NodeState)
    requires CommittedOrHalted(net, chain, hash, blockHash, s) && !s.halted && s.chain <= s'.chain
    ensures CommittedOrHalted(net, chain, hash, blockHash, s')
  {
  }

  // ----- Late prevotes -----

  /** A prevote for a propose of another height. */
  predicate IsLate(m: Message) {
    m.Prevote? && !Current(m.proposeHash, m.height)
  }

  /** The late prevotes among the messages, in order. */
  ghost function Late(sent: seq<Message>): seq<Message> {
    if sent == [] then []
    else Late(sent[..|sent| - 1]) + if IsLate(sent[|sent| - 1]) then [sent[|sent| - 1]] else []
  }

  lemma LateMore(sent: seq<Message>, m: Message)
    ensures Late(sent + [m]) == Late(sent) + if IsLate(m) then [m] else []
  {
    assert (sent + [m])[..|sent|] == sent;
  }

  lemma EmptyLate()
    ensures Late([]) == []
  {
  }

  lemma PrecommitInTime(net: Net, s: NodeState, round: nat, hash: Hash, time: int, sent: seq<Message>)
    requires hash.ProposeHash?
    ensures Late(sent + SendPrecommit(net, s, round, hash, time).sent) == Late(sent)
  {
    hide AddPrecommit;
    var more := SendPrecommit(net, s, round, hash, time).sent;
    if more == [] {
      assert sent + more == sent;
    } else {
      LateMore(sent, more[0]);
      assert more == [more[0]];
    }
  }

  lemma PrevoteInTime(net: Net, s: NodeState, round: nat, hash: Hash, sent: seq<Message>)
    requires Current(hash, Height(s))
    ensures Late(sent + SendPrevote(net, s, round, hash).sent) == Late(sent)
  {
    hide AddPrevote;
    var more := SendPrevote(net, s, round, hash).sent;
    if more == [] {
      assert sent + more == sent;
    } else {
      LateMore(sent, more[0]);
      assert more == [more[0]];
    }
  }

  /** What was added to the late prevotes is for these proposes. */
  ghost predicate AddedFor(before: seq<Message>, after: seq<Message>, hashes: set<Hash>) {
    && before <= after
    && forall k | |before| <= k < |after| :: after[k].Prevote? && after[k].proposeHash in hashes
  }

  lemma NoneAdded(late: seq<Message>, hashes: set<Hash>)
    ensures AddedFor(late, late, hashes)
  {
  }

  lemma AddedTwice(a: seq<Message>, b: seq<Message>, c: seq<Message>, some: set<Hash>, hashes: set<Hash>)
    requires AddedFor(a, b, hashes) && AddedFor(b, c, some) && some <= hashes
    ensures AddedFor(a, c, hashes) && (|b| < |c| ==> |a| < |c|) && (|a| < |b| ==> |a| < |c|)
  {
  }

  lemma OneMoreFor(before: seq<Message>, after: seq<Message>, hashes: set<Hash>, m: Message)
    requires AddedFor(before, after, hashes) && m.Prevote? && m.proposeHash in hashes
    ensures AddedFor(before, after + [m], hashes) && |before| < |after + [m]|
  {
  }
}
