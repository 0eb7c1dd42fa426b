/**
 Progress of a network of handlers: a round in which the messages of the correct validators
 reach every handler.
 */
module NetworkProgress {
  import opened Wrappers
  import opened ConsensusModel
  import opened ConsensusProgress
  import opened ConsensusSafety
  import opened HandlerNetwork
  import opened HandlerSteps
  import opened NodeBooks
  import opened NodeHandlerModel

  /** The handler is in the round of the goal, knows the propose and its transactions, and has nothing
      waiting. */
  ghost predicate Undecided(h: NodeHandler, g: Goal)
    reads h
  {
    && Deciding(h.net, h.state, h.sent, g) && h.queued == [] && h.unknownProposes == map[]
    && GoalHash(g) in h.proposes && h.proposes[GoalHash(g)].unknownTxs == {} && h.transactions == g.pool
  }

  /** The handler has committed the block of the goal and stands at the beginning of the next height;
      a validator has sent its votes. */
  ghost predicate Finished(h: NodeHandler, g: Goal)
    reads h
  {
    && h.AtStart() && h.state.chain == g.chain + [BlockOver(h.net, g.chain, g.propose)]
    && h.unknownProposes == map[] && h.transactions == g.pool - (set tx | tx in g.propose.txs)
    && var id := FindValidator(h.net.validators(g.chain), h.key);
       id.Some? ==> HasPrevoted(h.sent, id.value, h.key, g) && HasPrecommitted(h.net, h.sent, id.value, h.key, g)
  }

  ghost predicate InRound(h: NodeHandler, g: Goal)
    reads h
  {
    Undecided(h, g) || Finished(h, g)
  }

  /** The prevotes and the precommits of these validators have been counted, as long as it mattered. */
  ghost predicate HeardPrevotes(h: NodeHandler, g: Goal, voters: set<nat>)
    reads h
  {
    Finished(h, g) || voters <= Prevoters(h.state, g)
  }

  ghost predicate HeardPrecommits(h: NodeHandler, g: Goal, voters: set<nat>)
    reads h
  {
    Finished(h, g) || voters <= Precommitters(h.net, h.state, g)
  }

  lemma About(n: Network, k: Key)
    requires n.Valid() && k in n.handlers
    ensures var h := n.handlers[k];
            && h.net == n.net && h.key == k && h.state.key == k && h.validatorId == ValidatorId(h.net, h.state)
            && Logged(n.log, h.sent) && (h.state.lockedRound == 0 ==> h.state.lockedPropose.None?)
            && h.proposes.Keys == h.state.proposes
  {
  }

  /** A prevote for the goal reaches a handler. */
  method DeliverPrevote(n: Network, k: Key, m: Message, g: Goal, ghost voters: set<nat>)
    requires n.Valid() && n.Possible(k, Consensus(m)) && InRound(n.handlers[k], g)
    requires m.Prevote? && PrevotesFor(m, m.validator, m.signer, g) && HeardPrevotes(n.handlers[k], g, voters)
    requires m.validator < |n.net.validators(g.chain)| && m.signer == n.net.validators(g.chain)[m.validator]
    modifies n, n.handlers.Values
    ensures n.Valid() && InRound(n.handlers[k], g) && old(n.log) <= n.log
    ensures HeardPrevotes(n.handlers[k], g, voters + {m.validator})
    ensures forall j | j in n.handlers && j != k :: unchanged(n.handlers[j])
  {
    hide Network.Valid, AddPrevote, HasMajority, Deciding, Open, Locking, Commits;
    var h := n.handlers[k];
    ghost var s, sent, time := h.state, h.sent, h.clock;
    About(n, k);
    n.Deliver(k, Consensus(m));
    if old(Undecided(h, g)) {
      StateOf(h.net, s, sent, g);
      StateOpen(h.net, s, sent, g);
      AfterPrevoteCounted(h.net, s, sent, g, m);
      StateOpen(h.net, AddPrevote(h.net, s, m), sent, g);
      AfterLock(h.net, AddPrevote(h.net, s, m), sent, g, time);
    }
  }

  /** A precommit for the goal reaches a handler. */
  method DeliverPrecommit(n: Network, k: Key, m: Message, g: Goal, ghost voters: set<nat>)
    requires n.Valid() && n.Possible(k, Consensus(m)) && InRound(n.handlers[k], g)
    requires m.Precommit? && PrecommitsFor(n.net, m, m.validator, m.signer, g)
    requires HeardPrecommits(n.handlers[k], g, voters) && Locked(n.handlers[k], g)
    requires m.validator < |n.net.validators(g.chain)| && m.signer == n.net.validators(g.chain)[m.validator]
    modifies n, n.handlers.Values
    ensures n.Valid() && InRound(n.handlers[k], g) && Locked(n.handlers[k], g) && old(n.log) <= n.log
    ensures HeardPrecommits(n.handlers[k], g, voters + {m.validator})
    ensures forall j | j in n.handlers && j != k :: unchanged(n.handlers[j])
  {
    hide Network.Valid, AddPrecommit, HasMajority, Deciding, Open;
    var h := n.handlers[k];
    ghost var s, sent := h.state, h.sent;
    About(n, k);
    n.Deliver(k, Consensus(m));
    if old(Undecided(h, g)) {
      StateOf(h.net, s, sent, g);
      StateOpen(h.net, s, sent, g);
      AfterPrecommitCounted(h.net, s, sent, g, m);
      StateLocked(h.net, s, sent, g);
    }
  }

  /** The handler has locked on the goal, or is through with it. */
  ghost predicate Locked(h: NodeHandler, g: Goal)
    reads h
  {
    Finished(h, g) || h.state.lockedRound != 0
  }

  lemma StateLocked(net: Net, s: NodeState, sent: seq<Message>, g: Goal)
    requires Deciding(net, s, sent, g) && s.lockedRound != 0
    ensures ValidatorId(net, s).Some? ==>
              && HasPrevoted(sent, ValidatorId(net, s).value, s.key, g)
              && HasPrecommitted(net, sent, ValidatorId(net, s).value, s.key, g)
  {
  }

  /** The handler is in the round, unlocked and without a vote in it or in a later one; no precommit has
      been counted, nothing waits, and all known proposes are of earlier rounds. */
  ghost predicate Waiting(h: NodeHandler, chain: seq<Block>, r: nat, pool: set<TxId>)
    reads h
  {
    && !h.state.halted && h.state.chain == chain && h.state.round == r && 0 < r && h.state.lockedRound == 0
    && (forall q | r <= q :: q !in h.state.ourPrevotes && q !in h.state.ourPrecommits)
    && h.state.precommits == map[] && h.queued == [] && h.unknownProposes == map[] && h.transactions == pool
    && forall hash | hash in h.proposes :: hash.ProposeHash? ==> hash.propose.round < r
  }

  /** A propose of the leader of the round with transactions of the pool. */
  ghost predicate Proposable(net: Net, g: Goal) {
    var keys, p := net.validators(g.chain), g.propose;
    && 0 < |keys| && p.validator == Leader(net, g.chain, p.round) && p.signer == keys[p.validator]
    && p.height == |g.chain| && p.prevHash == LastHash(g.chain)
    && forall tx | tx in p.txs :: tx in g.pool
  }

  lemma WaitingIsFree(net: Net, s: NodeState, g: Goal)
    requires !s.halted && s.chain == g.chain && s.round == g.propose.round && 0 < s.round
    requires s.round !in s.ourPrecommits && s.precommits == map[]
    ensures Free(net, s, g)
  {
  }

  lemma PoolIsNew(n: Network, k: Key, txs: seq<TxId>)
    requires n.Valid() && k in n.handlers && forall tx | tx in txs :: tx in n.handlers[k].transactions
    ensures !exists tx | tx in txs :: Committed(n.handlers[k].state.chain, tx)
  {
    PoolUnused(n.net, n.handlers[k].TheBooks(), txs);
  }

  /** The propose reaches a handler. */
  method DeliverPropose(n: Network, k: Key, g: Goal, p: Propose)
    requires n.Valid() && k in n.handlers && Waiting(n.handlers[k], g.chain, p.round, g.pool)
    requires g.propose == p && Proposable(n.net, g)
    modifies n, n.handlers.Values
    ensures n.Valid() && InRound(n.handlers[k], g) && old(n.log) <= n.log
    ensures forall j | j in n.handlers && j != k :: unchanged(n.handlers[j])
  {
    hide Network.Valid, AddPrevote, HasMajority, Deciding, Open, Free, Locking, Commits, SendPrevote;
    var h := n.handlers[k];
    ghost var s, sent, time := h.state, h.sent, h.clock;
    ghost var learned := s.(proposes := s.proposes + {GoalHash(g)});
    ghost var e := SendPrevote(h.net, learned, p.round, GoalHash(g));
    About(n, k);
    PoolIsNew(n, k, p.txs);
    n.Deliver(k, Consensus(ProposeMsg(p)));
    assert (set tx | tx in p.txs && tx !in g.pool) == {};
    assert old(h.Clear(GoalHash(g), p.round));
    WaitingIsFree(h.net, learned, g);
    AfterPrevote(h.net, learned, sent, g);
    StateOpen(h.net, e.state, sent + e.sent, g);
    AfterLock(h.net, e.state, sent + e.sent, g, time);
  }

  /** The leader of the round makes a propose from its pool. */
  method LeaderProposes(n: Network, leader: Key, ghost chain: seq<Block>, r: nat, ghost pool: set<TxId>)
    returns (p: Propose)
    requires n.Valid() && leader in n.handlers && Waiting(n.handlers[leader], chain, r, pool)
    requires Leads(n.net, leader, chain, r)
    modifies n, n.handlers.Values
    ensures n.Valid() && InRound(n.handlers[leader], Goal(chain, p, pool)) && old(n.log) <= n.log
    ensures p.round == r && Proposable(n.net, Goal(chain, p, pool)) && AsManyAsFit(n.handlers[leader], p, pool)
    ensures forall j | j in n.handlers && j != leader :: unchanged(n.handlers[j])
  {
    hide Network.Valid, AddPrevote, HasMajority, Deciding, Open, Free, Locking, Commits, SendPrevote;
    var h := n.handlers[leader];
    ghost var s, sent, time := h.state, h.sent, h.clock;
    About(n, leader);
    var i, height := |h.sentProposes|, |h.state.chain|;
    assert h.MayPropose(height, r);
    n.Deliver(leader, ProposeTimeout(height, r));
    p := h.sentProposes[i];
    ghost var g := Goal(chain, p, pool);
    ghost var learned := s.(proposes := s.proposes + {GoalHash(g)});
    ghost var e := SendPrevote(h.net, learned, r, GoalHash(g));
    WaitingIsFree(h.net, learned, g);
    AfterPrevote(h.net, learned, sent, g);
    StateOpen(h.net, e.state, sent + e.sent, g);
    AfterLock(h.net, e.state, sent + e.sent, g, time);
  }

  /** The key is that of the leader. */
  ghost predicate Leads(net: Net, leader: Key, chain: seq<Block>, r: nat) {
    var keys := net.validators(chain);
    0 < |keys| && FindValidator(keys, leader) == Some(Leader(net, chain, r))
  }

  /** Different transactions of the pool, as many as a block takes. */
  ghost predicate AsManyAsFit(h: NodeHandler, p: Propose, pool: set<TxId>) {
    && (forall tx | tx in p.txs :: tx in pool)
    && (forall i, j | 0 <= i < j < |p.txs| :: p.txs[i] != p.txs[j])
    && |p.txs| == if h.txsBlockLimit < |pool| then h.txsBlockLimit else |pool|
  }

  lemma StateOf(net: Net, s: NodeState, sent: seq<Message>, g: Goal)
    requires Deciding(net, s, sent, g)
    ensures Open(net, s, sent, g)
    ensures s.lockedRound == 0 || s.lockedRound == s.round
  {
  }

  lemma StateOpen(net: Net, s: NodeState, sent: seq<Message>, g: Goal)
    requires Open(net, s, sent, g)
    ensures !s.halted && s.chain == g.chain && s.round == g.propose.round && 0 < s.round
    ensures ValidatorId(net, s).Some? ==> s.round in s.ourPrevotes
    ensures s.lockedRound == 0 && !HasMajority(net, s, Prevoters(s, g)) ==> Deciding(net, s, sent, g)
  {
  }

  // ----- A whole round -----

  /** The validators are different, and fewer than a third of them are missing. */
  ghost predicate Enough(n: Network, chain: seq<Block>) {
    Tolerable(n.net.validators(chain), n.handlers.Keys)
  }

  ghost predicate AllWaiting(n: Network, chain: seq<Block>, r: nat, pool: set<TxId>)
    reads n.handlers.Values
  {
    forall k | k in n.handlers :: Waiting(n.handlers[k], chain, r, pool)
  }

  ghost predicate AllInRound(n: Network, g: Goal)
    reads n.handlers.Values
  {
    forall k | k in n.handlers :: InRound(n.handlers[k], g)
  }

  ghost predicate AllLocked(n: Network, g: Goal)
    reads n.handlers.Values
  {
    forall k | k in n.handlers :: InRound(n.handlers[k], g) && Locked(n.handlers[k], g)
  }

  ghost predicate AllFinished(n: Network, g: Goal)
    reads n.handlers.Values
  {
    forall k | k in n.handlers :: Finished(n.handlers[k], g)
  }

  /** The propose of the leader reaches every handler. */
  method SpreadPropose(n: Network, leader: Key, chain: seq<Block>, r: nat, pool: set<TxId>) returns (g: Goal)
    requires n.Valid() && leader in n.handlers && AllWaiting(n, chain, r, pool) && Leads(n.net, leader, chain, r)
    modifies n, n.handlers.Values
    ensures n.Valid() && old(n.log) <= n.log && AllInRound(n, g)
    ensures g.chain == chain && g.pool == pool && g.propose.round == r
    ensures AsManyAsFit(n.handlers[leader], g.propose, pool)
  {
    hide Network.Valid, Waiting, InRound, Proposable, AsManyAsFit;
    var p := LeaderProposes(n, leader, chain, r, pool);
    g := Goal(chain, p, pool);
    var rest := n.handlers.Keys - {leader};
    while rest != {}
      invariant rest <= n.handlers.Keys && n.Valid() && old(n.log) <= n.log
      invariant forall k | k in n.handlers ::
                  if k in rest then Waiting(n.handlers[k], chain, r, pool) else InRound(n.handlers[k], g)
      decreases |rest|
    {
      EmptyOrInhabited(rest);
      var k :| k in rest;
      rest := rest - {k};
      DeliverPropose(n, k, g, p);
    }
  }

  lemma FindsItself(keys: seq<Key>, i: nat)
    requires i < |keys| && forall a, b | 0 <= a < b < |keys| :: keys[a] != keys[b]
    ensures FindValidator(keys, keys[i]) == Some(i)
  {
  }

  /** A validator among the handlers has sent its prevote. */
  lemma PrevoteIsLogged(n: Network, g: Goal, i: nat)
    requires n.Valid() && AllInRound(n, g) && Enough(n, g.chain)
    requires i < |n.net.validators(g.chain)| && n.net.validators(g.chain)[i] in n.handlers
    ensures Prevote(i, |g.chain|, g.propose.round, GoalHash(g), 0, n.net.validators(g.chain)[i]) in n.log
  {
    hide Network.Valid;
    var key := n.net.validators(g.chain)[i];
    About(n, key);
    FindsItself(n.net.validators(g.chain), i);
    assert InRound(n.handlers[key], g);
  }

  /** Every prevote of a validator among the handlers reaches one handler. */
  method HearPrevotes(n: Network, k: Key, g: Goal)
    requires n.Valid() && k in n.handlers && AllInRound(n, g) && Enough(n, g.chain)
    modifies n, n.handlers.Values
    ensures n.Valid() && old(n.log) <= n.log && AllInRound(n, g) && Locked(n.handlers[k], g)
    ensures forall j | j in n.handlers && j != k :: unchanged(n.handlers[j])
  {
    hide Network.Valid, InRound, HeardPrevotes, Enough;
    var keys := n.net.validators(g.chain);
    ghost var heard: set<nat> := {};
    assert HeardPrevotes(n.handlers[k], g, heard) by {
      NoneHeard(n.handlers[k], g);
    }
    for i := 0 to |keys|
      invariant n.Valid() && old(n.log) <= n.log && AllInRound(n, g) && HeardPrevotes(n.handlers[k], g, heard)
      invariant heard == set j: nat | j < i && keys[j] in n.handlers
      invariant forall j | j in n.handlers && j != k :: unchanged(n.handlers[j])
    {
      if keys[i] in n.handlers {
        PrevoteIsLogged(n, g, i);
        DeliverPrevote(n, k, Prevote(i, |g.chain|, g.propose.round, GoalHash(g), 0, keys[i]), g, heard);
        heard := heard + {i};
      }
    }
    assert heard == Correct(keys, n.handlers.Keys);
    LocksOnAll(n, k, g);
  }

  lemma NoneHeard(h: NodeHandler, g: Goal)
    ensures HeardPrevotes(h, g, {}) && HeardPrecommits(h, g, {})
  {
  }

  lemma LocksOnAll(n: Network, k: Key, g: Goal)
    requires n.Valid() && k in n.handlers && InRound(n.handlers[k], g) && Enough(n, g.chain)
    requires HeardPrevotes(n.handlers[k], g, Correct(n.net.validators(g.chain), n.handlers.Keys))
    ensures Locked(n.handlers[k], g)
  {
    hide Network.Valid;
    var h, keys := n.handlers[k], n.net.validators(g.chain);
    About(n, k);
    CorrectAreMajority(keys, n.handlers.Keys);
    if !Finished(h, g) {
      BoundedSubset(Correct(keys, n.handlers.Keys), Prevoters(h.state, g));
    }
  }

  /** Every prevote reaches every handler. */
  method SpreadPrevotes(n: Network, g: Goal)
    requires n.Valid() && AllInRound(n, g) && Enough(n, g.chain)
    modifies n, n.handlers.Values
    ensures n.Valid() && old(n.log) <= n.log && AllLocked(n, g)
  {
    hide Network.Valid, InRound, Locked, Enough;
    var rest := n.handlers.Keys;
    while rest != {}
      invariant rest <= n.handlers.Keys && n.Valid() && old(n.log) <= n.log && AllInRound(n, g)
      invariant forall k | k in n.handlers && k !in rest :: Locked(n.handlers[k], g)
      decreases |rest|
    {
      EmptyOrInhabited(rest);
      var k :| k in rest;
      rest := rest - {k};
      HearPrevotes(n, k, g);
    }
  }

  /** A validator among the handlers has sent its precommit. */
  lemma PrecommitIsLogged(n: Network, g: Goal, i: nat)
    requires n.Valid() && AllLocked(n, g) && Enough(n, g.chain)
    requires i < |n.net.validators(g.chain)| && n.net.validators(g.chain)[i] in n.handlers
    ensures exists m | m in n.log :: PrecommitsFor(n.net, m, i, n.net.validators(g.chain)[i], g)
  {
    hide Network.Valid;
    var key := n.net.validators(g.chain)[i];
    var h := n.handlers[key];
    About(n, key);
    FindsItself(n.net.validators(g.chain), i);
    assert InRound(h, g) && Locked(h, g);
    assert HasPrecommitted(h.net, h.sent, i, key, g);
    var m :| m in h.sent && PrecommitsFor(h.net, m, i, key, g);
    assert m in n.log;
  }

  /** Every precommit of a validator among the handlers reaches one handler. */
  method HearPrecommits(n: Network, k: Key, g: Goal)
    requires n.Valid() && k in n.handlers && AllLocked(n, g) && Enough(n, g.chain)
    modifies n, n.handlers.Values
    ensures n.Valid() && old(n.log) <= n.log && AllLocked(n, g) && Finished(n.handlers[k], g)
    ensures forall j | j in n.handlers && j != k :: unchanged(n.handlers[j])
  {
    hide Network.Valid, InRound, HeardPrecommits, Locked, Enough;
    var keys := n.net.validators(g.chain);
    ghost var heard: set<nat> := {};
    assert HeardPrecommits(n.handlers[k], g, heard) by {
      NoneHeard(n.handlers[k], g);
    }
    for i := 0 to |keys|
      invariant n.Valid() && old(n.log) <= n.log && AllLocked(n, g) && HeardPrecommits(n.handlers[k], g, heard)
      invariant heard == set j: nat | j < i && keys[j] in n.handlers
      invariant forall j | j in n.handlers && j != k :: unchanged(n.handlers[j])
    {
      if keys[i] in n.handlers {
        PrecommitIsLogged(n, g, i);
        var m :| m in n.log && PrecommitsFor(n.net, m, i, keys[i], g);
        DeliverPrecommit(n, k, m, g, heard);
        heard := heard + {i};
      }
    }
    assert heard == Correct(keys, n.handlers.Keys);
    CommitsOnAll(n, k, g);
  }

  lemma CommitsOnAll(n: Network, k: Key, g: Goal)
    requires n.Valid() && k in n.handlers && InRound(n.handlers[k], g) && Enough(n, g.chain)
    requires HeardPrecommits(n.handlers[k], g, Correct(n.net.validators(g.chain), n.handlers.Keys))
    ensures Finished(n.handlers[k], g)
  {
    hide Network.Valid;
    var h, keys := n.handlers[k], n.net.validators(g.chain);
    About(n, k);
    CorrectAreMajority(keys, n.handlers.Keys);
    if !Finished(h, g) {
      BoundedSubset(Correct(keys, n.handlers.Keys), Precommitters(h.net, h.state, g));
    }
  }

  /** Every precommit reaches every handler. */
  method SpreadPrecommits(n: Network, g: Goal)
    requires n.Valid() && AllLocked(n, g) && Enough(n, g.chain)
    modifies n, n.handlers.Values
    ensures n.Valid() && old(n.log) <= n.log && AllFinished(n, g)
  {
    hide Network.Valid, InRound, Locked, Finished, Enough;
    var rest := n.handlers.Keys;
    while rest != {}
      invariant rest <= n.handlers.Keys && n.Valid() && old(n.log) <= n.log && AllLocked(n, g)
      invariant forall k | k in n.handlers && k !in rest :: Finished(n.handlers[k], g)
      decreases |rest|
    {
      EmptyOrInhabited(rest);
      var k :| k in rest;
      rest := rest - {k};
      HearPrecommits(n, k, g);
    }
  }

  /** A whole round. */
  method FullRound(n: Network, leader: Key, chain: seq<Block>, r: nat, pool: set<TxId>) returns (g: Goal)
    requires n.Valid() && leader in n.handlers && AllWaiting(n, chain, r, pool) && Leads(n.net, leader, chain, r)
    requires Enough(n, chain)
    modifies n, n.handlers.Values
    ensures n.Valid() && old(n.log) <= n.log && AllFinished(n, g)
    ensures g.chain == chain && g.pool == pool && g.propose.round == r
    ensures AsManyAsFit(n.handlers[leader], g.propose, pool)
  {
    hide Network.Valid, AllWaiting, AllInRound, AllLocked, AllFinished, AsManyAsFit, Enough;
    g := SpreadPropose(n, leader, chain, r, pool);
    SpreadPrevotes(n, g);
    SpreadPrecommits(n, g);
  }

  // ----- Every transaction -----

  /** The round of an absent leader times out. */
  method DeliverTimeout(n: Network, k: Key, ghost chain: seq<Block>, r: nat, ghost pool: set<TxId>)
    requires n.Valid() && k in n.handlers && Waiting(n.handlers[k], chain, r, pool)
    modifies n, n.handlers.Values
    ensures n.Valid() && old(n.log) <= n.log && Waiting(n.handlers[k], chain, r + 1, pool)
    ensures forall j | j in n.handlers && j != k :: unchanged(n.handlers[j])
  {
    hide Network.Valid;
    About(n, k);
    var height := |n.handlers[k].state.chain|;
    n.Deliver(k, RoundTimeout(height, r));
  }

  /** Every handler moves on to the next round. */
  method NextRound(n: Network, ghost chain: seq<Block>, r: nat, ghost pool: set<TxId>)
    requires n.Valid() && AllWaiting(n, chain, r, pool)
    modifies n, n.handlers.Values
    ensures n.Valid() && old(n.log) <= n.log && AllWaiting(n, chain, r + 1, pool)
  {
    hide Network.Valid, Waiting;
    var rest := n.handlers.Keys;
    while rest != {}
      invariant rest <= n.handlers.Keys && n.Valid() && old(n.log) <= n.log
      invariant forall k | k in n.handlers ::
                  Waiting(n.handlers[k], chain, if k in rest then r else r + 1, pool)
      decreases |rest|
    {
      EmptyOrInhabited(rest);
      var k :| k in rest;
      rest := rest - {k};
      DeliverTimeout(n, k, chain, r, pool);
    }
  }

  /** Fewer than a third of the validators are missing, so one of them is present, and its turn comes. */
  lemma SomeLeaderIsPresent(n: Network, chain: seq<Block>, start: nat) returns (r: nat)
    requires Enough(n, chain)
    ensures 0 < |n.net.validators(chain)| && start <= r < start + |n.net.validators(chain)|
    ensures n.net.validators(chain)[Leader(n.net, chain, r)] in n.handlers
  {
    var keys := n.net.validators(chain);
    CorrectAreMajority(keys, n.handlers.Keys);
    var present := Correct(keys, n.handlers.Keys);
    assert present != {};
    var v :| v in present;
    r := LeadsOnce(n.net, chain, start, v);
  }

  /** From any round without a lock on, one of the next rounds commits a block at every handler, whoever
      leads the present one; it takes no more rounds than there are validators. */
  method CommitOne(n: Network, chain: seq<Block>, start: nat, pool: set<TxId>) returns (g: Goal)
    requires n.Valid() && n.handlers != map[] && AllWaiting(n, chain, start, pool) && Enough(n, chain)
    modifies n, n.handlers.Values
    ensures n.Valid() && old(n.log) <= n.log && AllFinished(n, g)
    ensures g.chain == chain && g.pool == pool
    ensures start <= g.propose.round < start + |n.net.validators(chain)|
    ensures exists k | k in n.handlers :: AsManyAsFit(n.handlers[k], g.propose, pool)
  {
    hide Network.Valid, AllWaiting, AllFinished, AsManyAsFit, Enough, Leader;
    ghost var last := SomeLeaderIsPresent(n, chain, start);
    var keys := n.net.validators(chain);
    var r := start;
    LeaderInRange(n.net, chain, r);
    while keys[Leader(n.net, chain, r)] !in n.handlers
      invariant start <= r <= last && n.Valid() && old(n.log) <= n.log && AllWaiting(n, chain, r, pool)
      invariant Leader(n.net, chain, r) < |keys|
      decreases last - r
    {
      NextRound(n, chain, r, pool);
      r := r + 1;
      LeaderInRange(n.net, chain, r);
    }
    var leader := keys[Leader(n.net, chain, r)];
    PresentLeads(n, chain, r);
    g := FullRound(n, leader, chain, r, pool);
  }

  lemma LeaderInRange(net: Net, chain: seq<Block>, r: nat)
    requires 0 < |net.validators(chain)|
    ensures Leader(net, chain, r) < |net.validators(chain)|
  {
  }

  lemma PresentLeads(n: Network, chain: seq<Block>, r: nat)
    requires Enough(n, chain) && 0 < |n.net.validators(chain)|
    ensures Leads(n.net, n.net.validators(chain)[Leader(n.net, chain, r)], chain, r)
  {
    FindsItself(n.net.validators(chain), Leader(n.net, chain, r));
  }

  /** The handlers that have committed wait for the next block. */
  lemma FinishedWaits(n: Network, g: Goal)
    requires n.Valid() && AllFinished(n, g)
    ensures AllWaiting(n, g.chain + [BlockOver(n.net, g.chain, g.propose)], 1,
                       g.pool - set tx | tx in g.propose.txs)
  {
    hide Network.Valid;
    forall k | k in n.handlers
      ensures Waiting(n.handlers[k], g.chain + [BlockOver(n.net, g.chain, g.propose)], 1,
                      g.pool - set tx | tx in g.propose.txs)
    {
      About(n, k);
      assert Finished(n.handlers[k], g);
    }
  }

  /** Every transaction that is in the pools is in the chain of every handler in the end. */
  method CommitAll(n: Network, start: seq<Block>, pool: set<TxId>) returns (chain: seq<Block>)
    requires n.Valid() && n.handlers != map[] && AllWaiting(n, start, 1, pool)
    requires forall c :: Enough(n, c)
    requires forall k | k in n.handlers :: 0 < n.handlers[k].txsBlockLimit
    modifies n, n.handlers.Values
    ensures n.Valid() && old(n.log) <= n.log && start <= chain
    ensures forall k | k in n.handlers :: n.handlers[k].state.chain == chain && n.handlers[k].transactions == {}
    ensures forall tx | tx in pool :: Committed(chain, tx)
  {
    hide Network.Valid, Waiting, AllWaiting, Enough, AllFinished;
    chain := start;
    var rest := pool;
    while rest != {}
      invariant n.Valid() && old(n.log) <= n.log && start <= chain && rest <= pool
      invariant AllWaiting(n, chain, 1, rest)
      invariant forall tx | tx in pool && tx !in rest :: Committed(chain, tx)
      decreases |rest|
    {
      var g := CommitOne(n, chain, 1, rest);
      FinishedWaits(n, g);
      var b := BlockOver(n.net, chain, g.propose);
      SomeTaken(n, g);
      BlockCommits(chain, b);
      chain, rest := chain + [b], rest - set tx | tx in g.propose.txs;
    }
    WaitingMeans(n, chain, rest);
  }

  lemma SomeTaken(n: Network, g: Goal)
    requires g.pool != {} && exists k | k in n.handlers :: AsManyAsFit(n.handlers[k], g.propose, g.pool)
    requires forall k | k in n.handlers :: 0 < n.handlers[k].txsBlockLimit
    ensures |g.pool - set tx | tx in g.propose.txs| < |g.pool|
  {
    var k :| k in n.handlers && AsManyAsFit(n.handlers[k], g.propose, g.pool);
    var tx := g.propose.txs[0];
    assert tx in g.propose.txs && tx in g.pool;
    var left := g.pool - set tx | tx in g.propose.txs;
    assert left <= g.pool - {tx};
    BoundedTxs(left, g.pool - {tx});
  }

  lemma BoundedTxs(a: set<TxId>, b: set<TxId>)
    requires a <= b
    ensures |a| <= |b|
  {
    assert b == a + (b - a);
  }

  lemma BlockCommits(chain: seq<Block>, b: Block)
    ensures forall tx | tx in b.txs || Committed(chain, tx) :: Committed(chain + [b], tx)
  {
    assert b in chain + [b];
    assert forall c | c in chain :: c in chain + [b];
  }

  lemma WaitingMeans(n: Network, chain: seq<Block>, pool: set<TxId>)
    requires AllWaiting(n, chain, 1, pool)
    ensures forall k | k in n.handlers :: n.handlers[k].state.chain == chain && n.handlers[k].transactions == pool
  {
  }
}
