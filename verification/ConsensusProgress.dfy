/**
 Progress.  In a round in which the leader's propose, the prevotes and the precommits of the
 correct validators reach every correct node, every node commits the block of the propose;
 this needs no more than that fewer than a third of the validators are faulty.
 */
module ConsensusProgress {
  import opened Wrappers
  import opened ConsensusModel
  import opened HandlerSteps

  /** What a round is to decide: a propose on top of a chain, with transactions from a pool. */
  datatype Goal = Goal(chain: seq<Block>, propose: Propose, pool: set<TxId>)

  function GoalHash(g: Goal): Hash {
    ProposeHash(g.propose)
  }

  function GoalBlockHash(net: Net, g: Goal): Hash {
    BlockHash(BlockOver(net, g.chain, g.propose))
  }

  /** The prevote and the precommit of a validator for it. */
  predicate PrevotesFor(m: Message, id: nat, key: Key, g: Goal) {
    m == Prevote(id, |g.chain|, g.propose.round, GoalHash(g), 0, key)
  }

  predicate PrecommitsFor(net: Net, m: Message, id: nat, key: Key, g: Goal) {
    m.Precommit? && m == Precommit(id, |g.chain|, g.propose.round, GoalHash(g), GoalBlockHash(net, g), m.time, key)
  }

  ghost predicate HasPrevoted(sent: seq<Message>, id: nat, key: Key, g: Goal) {
    exists m | m in sent :: PrevotesFor(m, id, key, g)
  }

  ghost predicate HasPrecommitted(net: Net, sent: seq<Message>, id: nat, key: Key, g: Goal) {
    exists m | m in sent :: PrecommitsFor(net, m, id, key, g)
  }

  ghost function Prevoters(s: NodeState, g: Goal): set<nat> {
    Voters(s.prevotes, g.propose.round, GoalHash(g))
  }

  ghost function Precommitters(net: Net, s: NodeState, g: Goal): set<nat> {
    Voters(s.precommits, g.propose.round, GoalBlockHash(net, g))
  }

  /** The node runs in the round of the goal, and nothing that it has voted stands against it; there
      is no majority of precommits yet. */
  ghost predicate Free(net: Net, s: NodeState, g: Goal) {
    && !s.halted && s.chain == g.chain && s.round == g.propose.round && 0 < s.round
    && (s.round in s.ourPrecommits && s.ourPrecommits[s.round].Precommit? ==>
          s.ourPrecommits[s.round].proposeHash == GoalHash(g))
    && !HasMajority(net, s, Precommitters(net, s, g))
  }

  /** Moreover a validator has prevoted for the goal. */
  ghost predicate Open(net: Net, s: NodeState, sent: seq<Message>, g: Goal) {
    && Free(net, s, g)
    && (ValidatorId(net, s).Some? ==>
          && s.round in s.ourPrevotes && PrevotesFor(s.ourPrevotes[s.round], ValidatorId(net, s).value, s.key, g)
          && HasPrevoted(sent, ValidatorId(net, s).value, s.key, g))
  }

  /** The node has no lock and no majority of prevotes, or it is locked on the goal and has sent its
      precommit. */
  ghost predicate Deciding(net: Net, s: NodeState, sent: seq<Message>, g: Goal) {
    && Open(net, s, sent, g)
    && if s.lockedRound == 0 then !HasMajority(net, s, Prevoters(s, g))
       else && s.lockedRound == s.round && s.lockedPropose == Some(GoalHash(g))
            && (ValidatorId(net, s).Some? ==> HasPrecommitted(net, sent, ValidatorId(net, s).value, s.key, g))
  }

  lemma StillPrevoted(sent: seq<Message>, more: seq<Message>, id: nat, key: Key, g: Goal)
    requires HasPrevoted(sent, id, key, g)
    ensures HasPrevoted(sent + more, id, key, g)
  {
    var m :| m in sent && PrevotesFor(m, id, key, g);
    assert m in sent + more;
  }

  /** The prevote for the propose. */
  lemma AfterPrevote(net: Net, s: NodeState, sent: seq<Message>, g: Goal)
    requires Free(net, s, g) && s.lockedRound == 0 && s.round !in s.ourPrevotes
    ensures var e := SendPrevote(net, s, s.round, GoalHash(g));
            Open(net, e.state, sent + e.sent, g) && e.state.lockedRound == 0 && e.state.key == s.key
  {
    hide HasMajority;
    var e := SendPrevote(net, s, s.round, GoalHash(g));
    if ValidatorId(net, s).Some? {
      var m := OwnPrevote(s, ValidatorId(net, s).value, s.round, GoalHash(g));
      assert m in sent + e.sent && PrevotesFor(m, ValidatorId(net, s).value, s.key, g);
    }
    KeysSame(net, s, e.state);
  }

  lemma KeysSame(net: Net, s: NodeState, t: NodeState)
    requires s.chain == t.chain
    ensures forall voters :: HasMajority(net, s, voters) == HasMajority(net, t, voters)
  {
  }

  /** The lock for a majority of prevotes. */
  lemma AfterLock(net: Net, s: NodeState, sent: seq<Message>, g: Goal, time: int)
    requires Open(net, s, sent, g)
    ensures var e := Locking(net, s, s.round, GoalHash(g), time);
            && (ValidatorId(net, s).Some? ==> HasPrecommitted(net, sent + e.sent, ValidatorId(net, s).value, s.key, g))
            && (ValidatorId(net, s).Some? ==> HasPrevoted(sent + e.sent, ValidatorId(net, s).value, s.key, g))
            && (!Commits(net, e, s.round, GoalBlockHash(net, g)) ==> Deciding(net, e.state, sent + e.sent, g))
            && e.state.prevotes == s.prevotes && !e.state.halted
  {
    hide HasMajority;
    var e := Locking(net, s, s.round, GoalHash(g), time);
    KeysSame(net, s, e.state);
    if ValidatorId(net, s).Some? {
      var id := ValidatorId(net, s).value;
      StillPrevoted(sent, e.sent, id, s.key, g);
      var m := Precommit(id, |g.chain|, s.round, GoalHash(g), GoalBlockHash(net, g), time, s.key);
      assert e.sent == [m];
      assert m in sent + e.sent && PrecommitsFor(net, m, id, s.key, g);
    }
  }

  /** A prevote for the goal arrives. */
  lemma AfterPrevoteCounted(net: Net, s: NodeState, sent: seq<Message>, g: Goal, m: Message)
    requires Deciding(net, s, sent, g) && m.Prevote? && PrevotesFor(m, m.validator, m.signer, g)
    requires m.validator < |net.validators(g.chain)| && m.signer == net.validators(g.chain)[m.validator]
    ensures var t := AddPrevote(net, s, m);
            && Open(net, t, sent, g) && Prevoters(t, g) == Prevoters(s, g) + {m.validator}
            && t.lockedRound == s.lockedRound && (s.lockedRound != 0 ==> Deciding(net, t, sent, g))
            && t.precommits == s.precommits && t.key == s.key
  {
    hide HasMajority;
    KeysSame(net, s, AddPrevote(net, s, m));
  }

  /** A precommit for the goal arrives. */
  lemma AfterPrecommitCounted(net: Net, s: NodeState, sent: seq<Message>, g: Goal, m: Message)
    requires Deciding(net, s, sent, g) && m.Precommit? && PrecommitsFor(net, m, m.validator, m.signer, g)
    ensures var t := AddPrecommit(net, s, m);
            && !t.halted && Precommitters(net, t, g) == Precommitters(net, s, g) + {m.validator}
            && (!HasMajority(net, t, Precommitters(net, t, g)) ==> Deciding(net, t, sent, g))
            && t.prevotes == s.prevotes && t.key == s.key && t.lockedRound == s.lockedRound
  {
    hide HasMajority;
    KeysSame(net, s, AddPrecommit(net, s, m));
  }
}
