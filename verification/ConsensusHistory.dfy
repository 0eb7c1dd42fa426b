/**
 The history of one node: the actions it took, the states they led through and what it had
 sent by then.  What no action undoes holds over every stretch of a history: chains only get
 longer, and while a height lasts no propose is forgotten and no vote is lost.
 */
module ConsensusHistory {
  import opened ConsensusModel

  /** Entry `i` of a history is the node before action `i` and everything it had sent by then. */
  ghost predicate StepAt(net: Net, history: seq<Effect>, actions: seq<Action>, i: nat)
    requires i < |actions| && i + 1 < |history|
  {
    && Enabled(net, history[i].state, actions[i])
    && var e := Apply(net, history[i].state, actions[i]);
       history[i + 1] == Effect(e.state, history[i].sent + e.sent)
  }

  ghost predicate IsHistory(net: Net, key: Key, history: seq<Effect>, actions: seq<Action>) {
    && |history| == |actions| + 1
    && history[0] == Effect(InitialNode(net, key), [])
    && forall i {:trigger StepAt(net, history, actions, i)} | 0 <= i < |actions| :: StepAt(net, history, actions, i)
  }

  lemma HistoryExtends(net: Net, key: Key, history: seq<Effect>, actions: seq<Action>, a: Action, state': NodeState,
      sent': seq<Message>)
    requires IsHistory(net, key, history, actions)
    requires var last := history[|actions|];
             Enabled(net, last.state, a) && state' == Apply(net, last.state, a).state
             && sent' == last.sent + Apply(net, last.state, a).sent
    ensures IsHistory(net, key, history + [Effect(state', sent')], actions + [a])
  {
    var history', actions' := history + [Effect(state', sent')], actions + [a];
    forall i | 0 <= i < |actions'|
      ensures StepAt(net, history', actions', i)
    {
      if i < |actions| {
        assert StepAt(net, history, actions, i);
        assert history'[i] == history[i] && history'[i + 1] == history[i + 1] && actions'[i] == actions[i];
      }
    }
  }

  /** The messages an action takes from the network. */
  function Inputs(a: Action): set<Message> {
    match a
    case RecvPrevote(m) => {m}
    case RecvPrecommit(m) => {m}
    case LearnCertificate(ps, _) => set m | m in ps
    case _ => {}
  }

  ghost predicate InputsKnown(actions: seq<Action>, received: set<Message>) {
    forall i | 0 <= i < |actions| :: Inputs(actions[i]) <= received
  }

  lemma {:induction false} SentGrows(net: Net, k: Key, history: seq<Effect>, actions: seq<Action>, lo: nat, hi: nat)
    requires lo <= hi <= |actions| && IsHistory(net, k, history, actions)
    ensures history[lo].sent <= history[hi].sent
    decreases hi - lo
  {
    if lo == hi {
    } else {
      assert StepAt(net, history, actions, lo);
      SentGrows(net, k, history, actions, lo + 1, hi);
    }
  }

  /** The actions determine the history. */
  lemma {:induction false} HistoriesAgree(net: Net, k: Key, history: seq<Effect>, actions: seq<Action>,
                                          history': seq<Effect>, actions': seq<Action>, i: nat)
    requires IsHistory(net, k, history, actions) && IsHistory(net, k, history', actions')
    requires actions <= actions' && i <= |actions|
    ensures history[i] == history'[i]
  {
    if i == 0 {
    } else {
      HistoriesAgree(net, k, history, actions, history', actions', i - 1);
      assert StepAt(net, history, actions, i - 1) && StepAt(net, history', actions', i - 1);
    }
  }

  // ----- What grows -----

  ghost predicate VotesGrow(votes: Votes, votes': Votes) {
    forall r, h :: Voters(votes, r, h) <= Voters(votes', r, h)
  }

  /** The chain is extended, and as long as it is not and the node has not stopped, rounds, known
      proposes and votes only grow. */
  ghost predicate Grows(s: NodeState, s': NodeState) {
    && s.chain <= s'.chain && (s.halted ==> s'.halted)
    && (s'.halted || s.chain != s'.chain ||
        (&& s.round <= s'.round && s.proposes <= s'.proposes
         && VotesGrow(s.prevotes, s'.prevotes) && VotesGrow(s.precommits, s'.precommits)))
  }

  lemma GrowsTwice(s: NodeState, t: NodeState, u: NodeState)
    requires Grows(s, t) && Grows(t, u)
    ensures Grows(s, u)
  {
    assert s.chain == u.chain ==> s.chain == t.chain;
    if !u.halted && s.chain == u.chain {
      VotesGrowTwice(s.prevotes, t.prevotes, u.prevotes);
      VotesGrowTwice(s.precommits, t.precommits, u.precommits);
    }
  }

  lemma VotesGrowTwice(a: Votes, b: Votes, c: Votes)
    requires VotesGrow(a, b) && VotesGrow(b, c)
    ensures VotesGrow(a, c)
  {
  }

  lemma ActionGrows(net: Net, s: NodeState, a: Action)
    requires Enabled(net, s, a)
    ensures Grows(s, Apply(net, s, a).state)
  {
    hide HasMajority, ValidCertificate, HaveIncompatiblePrevotes, Authentic, AddPrevote, AddPrecommit;
    VotesGrowNot(s.prevotes);
    VotesGrowNot(s.precommits);
    forall t: NodeState, m: Message | m.Prevote? ensures Grows(t, AddPrevote(net, t, m)) {
      PrevoteGrows(net, t, m);
    }
    forall t: NodeState, m: Message | m.Precommit? ensures Grows(t, AddPrecommit(net, t, m)) {
      PrecommitGrows(net, t, m);
    }
  }

  lemma VotesGrowNot(votes: Votes)
    ensures VotesGrow(votes, votes)
  {
  }

  lemma PrevoteGrows(net: Net, s: NodeState, m: Message)
    requires m.Prevote?
    ensures Grows(s, AddPrevote(net, s, m))
  {
  }

  lemma PrecommitGrows(net: Net, s: NodeState, m: Message)
    requires m.Precommit?
    ensures Grows(s, AddPrecommit(net, s, m))
  {
    hide HasMajority;
  }

  lemma {:induction false} StretchGrows(net: Net, k: Key, history: seq<Effect>, actions: seq<Action>, lo: nat, hi: nat)
    requires lo <= hi <= |actions| && IsHistory(net, k, history, actions)
    ensures Grows(history[lo].state, history[hi].state)
    decreases hi - lo
  {
    hide Apply, Enabled, Grows;
    if lo == hi {
      GrowsNot(history[lo].state);
    } else {
      assert StepAt(net, history, actions, lo);
      ActionGrows(net, history[lo].state, actions[lo]);
      StretchGrows(net, k, history, actions, lo + 1, hi);
      GrowsTwice(history[lo].state, history[lo + 1].state, history[hi].state);
    }
  }

  lemma GrowsNot(s: NodeState)
    ensures Grows(s, s)
  {
  }

  /** From an earlier moment, with its own history, to a later one. */
  lemma LaterGrows(net: Net, k: Key, history: seq<Effect>, actions: seq<Action>, history': seq<Effect>,
      actions': seq<Action>)
    requires IsHistory(net, k, history, actions) && IsHistory(net, k, history', actions') && actions <= actions'
    ensures Grows(history[|actions|].state, history'[|actions'|].state)
    ensures history[|actions|].sent <= history'[|actions'|].sent
  {
    hide Grows;
    HistoriesAgree(net, k, history, actions, history', actions', |actions|);
    StretchGrows(net, k, history', actions', |actions|, |actions'|);
    SentGrows(net, k, history', actions', |actions|, |actions'|);
  }

  /** A history, and all messages it took from the network are among the received ones. */
  ghost predicate Recorded(net: Net, k: Key, history: seq<Effect>, actions: seq<Action>, received: set<Message>) {
    IsHistory(net, k, history, actions) && InputsKnown(actions, received)
  }

  // ----- What becomes of a message -----

  /** A message of the next height, or of a later round of this one. */
  predicate Early(height: nat, round: nat, m: Message) {
    MessageHeight(m) == height + 1 || (MessageHeight(m) == height && MessageRound(m) > round)
  }

  ghost predicate OnlyEarly(height: nat, round: nat, queued: seq<Message>) {
    forall m | m in queued :: Early(height, round, m)
  }

  /** An acceptable propose is known; a vote is among those of its round. */
  ghost predicate Counted(net: Net, s: NodeState, m: Message)
    requires Authentic(net, s, m)
  {
    match m
    case ProposeMsg(p) => Acceptable(net, s.chain, p) ==> ProposeHash(p) in s.proposes
    case Prevote(v, _, r, hash, _, _) => v in Voters(s.prevotes, r, hash)
    case Precommit(v, _, r, _, blockHash, _, _) => v in Voters(s.precommits, r, blockHash)
  }

  /** Nothing is left to do for a message: the node has stopped, the height of the message is over,
      or it is of this height and of a round that has come, and if authentic, it counts. */
  ghost predicate Settled(net: Net, s: NodeState, m: Message) {
    || s.halted || MessageHeight(m) < |s.chain|
    || (&& MessageHeight(m) == |s.chain| && MessageRound(m) <= s.round
        && (Authentic(net, s, m) ==> Counted(net, s, m)))
  }

  lemma SettledStays(net: Net, s: NodeState, s': NodeState, m: Message)
    requires Grows(s, s') && Settled(net, s, m)
    ensures Settled(net, s', m)
  {
  }

  /** Each of the messages waits or is settled. */
  ghost predicate Kept(net: Net, s: NodeState, ms: seq<Message>, queued: seq<Message>) {
    forall m | m in ms :: m in queued || Settled(net, s, m)
  }

  lemma KeptSame(net: Net, s: NodeState, queued: seq<Message>)
    ensures Kept(net, s, queued, queued)
  {
  }

  lemma KeptTwice(net: Net, s: NodeState, s': NodeState, ms: seq<Message>, before: seq<Message>, after: seq<Message>)
    requires Kept(net, s, ms, before) && Kept(net, s', before, after) && Grows(s, s')
    ensures Kept(net, s', ms, after)
  {
    hide Settled;
    forall m | m in ms ensures m in after || Settled(net, s', m) {
      if m !in before {
        SettledStays(net, s, s', m);
      }
    }
  }

  lemma KeptMore(net: Net, s: NodeState, ms: seq<Message>, m: Message, queued: seq<Message>)
    requires Kept(net, s, ms, queued) && (m in queued || Settled(net, s, m))
    ensures Kept(net, s, ms + [m], queued)
  {
    hide Settled;
  }

  /** From a height and a round to a later state no message leaves the queue before it is settled,
      and if only early messages wait then so it remains. */
  ghost predicate Held(net: Net, height: nat, round: nat, queued: seq<Message>, s: NodeState, queued': seq<Message>) {
    && Kept(net, s, queued, queued')
    && (OnlyEarly(height, round, queued) ==> OnlyEarly(|s.chain|, s.round, queued'))
  }

  lemma HeldSame(net: Net, s: NodeState, queued: seq<Message>)
    ensures Held(net, |s.chain|, s.round, queued, s, queued)
  {
    hide Settled;
  }

  lemma HeldMore(net: Net, s: NodeState, queued: seq<Message>, m: Message)
    requires Early(|s.chain|, s.round, m)
    ensures Held(net, |s.chain|, s.round, queued, s, queued + [m])
  {
    hide Settled;
  }

  lemma HeldTwice(net: Net, height: nat, round: nat, q: seq<Message>, s: NodeState, q': seq<Message>, s': NodeState,
      q'': seq<Message>)
    requires Held(net, height, round, q, s, q') && Held(net, |s.chain|, s.round, q', s', q'') && Grows(s, s')
    ensures Held(net, height, round, q, s', q'')
  {
    hide Kept, OnlyEarly, Grows;
    KeptTwice(net, s, s', q, q', q'');
  }
}
