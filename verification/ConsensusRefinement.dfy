/**
 From handlers to the network.  A call of a handler method takes a node along a stretch of
 its history; a network of handlers, in which whole calls of different nodes alternate in
 any order, satisfies the invariant and therefore agreement.
 */
module ConsensusRefinement {
  import opened ConsensusHistory
  import opened ConsensusModel
  import opened ConsensusSafety
  import opened ConsensusInvariant
  import opened NodeBooks
  import opened NodeHandlerModel

  /** Node `k` makes the actions `lo..hi` of its history; the messages it takes in were sent
      before the call, or are signed by faulty validators. */
  ghost predicate CallBy(net: Net, sys: System, k: Key, history: seq<Effect>, actions: seq<Action>, lo: nat, hi: nat,
      sys': System) {
    && IsHistory(net, k, history, actions)
    && lo <= hi <= |actions|
    && k in sys.nodes && sys.nodes[k] == history[lo].state
    && (forall i | lo <= i < hi :: Deliverable(sys.nodes.Keys, sys.log, actions[i]))
    && history[lo].sent <= history[hi].sent
    && sys' == System(sys.nodes[k := history[hi].state], sys.log + history[hi].sent[|history[lo].sent|..])
  }

  /** Votes of correct validators are never forged: whatever was handed in had been sent. */
  ghost predicate Genuine(correct: set<Key>, log: seq<Message>, received: set<Message>) {
    forall m | m in received && !m.ProposeMsg? && MessageSigner(m) in correct :: m in log
  }

  lemma InputsDeliverable(correct: set<Key>, log: seq<Message>, received: set<Message>, s: NodeState, net: Net,
      a: Action)
    requires Inputs(a) <= received && Genuine(correct, log, received) && Enabled(net, s, a)
    ensures Deliverable(correct, log, a)
  {
    hide Authentic;
  }

  /** The first action of a call is a step of the system, and the rest is a shorter call. */
  lemma FirstStep(net: Net, sys: System, k: Key, history: seq<Effect>, actions: seq<Action>, lo: nat, hi: nat,
      sys': System)
    returns (mid: System)
    requires CallBy(net, sys, k, history, actions, lo, hi, sys') && lo < hi
    ensures StepBy(net, sys, k, actions[lo], mid) && mid.nodes.Keys == sys.nodes.Keys
    ensures CallBy(net, mid, k, history, actions, lo + 1, hi, sys')
  {
    hide Apply, Enabled;
    assert StepAt(net, history, actions, lo);
    var e := Apply(net, history[lo].state, actions[lo]);
    mid := System(sys.nodes[k := e.state], sys.log + e.sent);
    assert forall m | m in sys.log :: m in mid.log;
    forall i | lo + 1 <= i < hi
      ensures Deliverable(mid.nodes.Keys, mid.log, actions[i])
    {
      assert Deliverable(sys.nodes.Keys, sys.log, actions[i]);
    }
    SentGrows(net, k, history, actions, lo + 1, hi);
    var rest := history[hi].sent[|history[lo + 1].sent|..];
    assert history[hi].sent[|history[lo].sent|..] == e.sent + rest;
    assert sys'.log == mid.log + rest;
    assert sys'.nodes == mid.nodes[k := history[hi].state];
  }

  /** Faults that are few for longer chains are few for their prefixes. */
  lemma EarlierFewFaults(net: Net, sys: System, sys': System)
    requires FewFaults(net, sys') && sys.nodes.Keys == sys'.nodes.Keys
    requires forall k | k in sys.nodes :: sys.nodes[k].chain <= sys'.nodes[k].chain
    ensures FewFaults(net, sys)
  {
    forall k, h | k in sys.nodes && 0 <= h <= |sys.nodes[k].chain|
      ensures Tolerable(net.validators(sys.nodes[k].chain[..h]), sys.nodes.Keys)
    {
      assert sys.nodes[k].chain[..h] == sys'.nodes[k].chain[..h];
    }
  }

  /** A call keeps the invariant when there are few faults after it. */
  lemma {:induction false} CallKeepsInv(net: Net, sys: System, k: Key, history: seq<Effect>, actions: seq<Action>,
                                        lo: nat, hi: nat, sys': System)
    requires Inv(net, sys) && FewFaults(net, sys')
    requires CallBy(net, sys, k, history, actions, lo, hi, sys')
    ensures Inv(net, sys') && sys'.nodes.Keys == sys.nodes.Keys
    decreases hi - lo
  {
    hide Inv, FewFaults, StepBy, IsHistory, Deliverable;
    if lo == hi {
      assert sys' == sys;
    } else {
      var mid := FirstStep(net, sys, k, history, actions, lo, hi, sys');
      StretchGrows(net, k, history, actions, lo, hi);
      EarlierFewFaults(net, sys, sys');
      StepKeepsInv(net, sys, k, actions[lo], mid);
      CallKeepsInv(net, mid, k, history, actions, lo + 1, hi, sys');
    }
  }

  // ----- A call of a handler object is such a call -----

  /** The system after a node has come from one point of its history to a later one. */
  ghost function After(sys: System, k: Key, before: Effect, now: Effect): System
    requires before.sent <= now.sent
  {
    System(sys.nodes[k := now.state], sys.log + now.sent[|before.sent|..])
  }

  lemma StretchIsCall(net: Net, sys: System, k: Key, history: seq<Effect>, actions: seq<Action>,
                      history': seq<Effect>, actions': seq<Action>, received: set<Message>)
    requires IsHistory(net, k, history, actions) && IsHistory(net, k, history', actions') && actions <= actions'
    requires InputsKnown(actions', received) && Genuine(sys.nodes.Keys, sys.log, received)
    requires k in sys.nodes && sys.nodes[k] == history[|actions|].state
    ensures history[|actions|].sent <= history'[|actions'|].sent
    ensures CallBy(net, sys, k, history', actions', |actions|, |actions'|,
                   After(sys, k, history[|actions|], history'[|actions'|]))
  {
    HistoriesAgree(net, k, history, actions, history', actions', |actions|);
    SentGrows(net, k, history', actions', |actions|, |actions'|);
    forall i | |actions| <= i < |actions'|
      ensures Deliverable(sys.nodes.Keys, sys.log, actions'[i])
    {
      assert StepAt(net, history', actions', i);
      InputsDeliverable(sys.nodes.Keys, sys.log, received, history'[i].state, net, actions'[i]);
    }
  }

  /** Whatever a handler did since an earlier moment, of which it had the given history, is a call
      of its node. */
  lemma HandlerCall(h: NodeHandler, history: seq<Effect>, actions: seq<Action>, received: set<Message>, sys: System)
    requires Recorded(h.net, h.key, history, actions, received) && |history| == |actions| + 1
    requires h.Valid() && actions <= h.actions
    requires h.key in sys.nodes && sys.nodes[h.key] == history[|actions|].state
    requires Genuine(sys.nodes.Keys, sys.log, h.received)
    ensures history[|actions|].sent <= h.sent && history[|actions|].state.chain <= h.state.chain
    ensures CallBy(h.net, sys, h.key, h.history, h.actions, |actions|, |h.actions|,
                   System(sys.nodes[h.key := h.state], sys.log + h.sent[|history[|actions|].sent|..]))
  {
    hide InputsKnown, Consistent, Expected, Genuine, CallBy, VotesGrow;
    StretchIsCall(h.net, sys, h.key, history, actions, h.history, h.actions, h.received);
    HistoriesAgree(h.net, h.key, history, actions, h.history, h.actions, |actions|);
    StretchGrows(h.net, h.key, h.history, h.actions, |actions|, |h.actions|);
  }
}
