/**
 A network of node handlers.  Events reach the handlers one after another, in any order and
 with any content that does not forge a vote of a correct validator; what a handler
 broadcasts is added to the log.
 */
module HandlerNetwork {
  import opened ConsensusHistory
  import opened ConsensusModel
  import opened ConsensusSafety
  import opened ConsensusInvariant
  import opened HandlerSteps
  import opened NodeBooks
  import opened NodeHandlerModel
  import opened ConsensusRefinement

  /** What can reach a node: a consensus message, a transaction, a block with its precommits, a
      scheduled jump, a timeout, or a new time of day. */
  datatype Event =
    | Consensus(msg: Message)
    | Tx(tx: TxId)
    | BlockResponse(envelope: Envelope, block: Block, precommits: seq<Message>, txs: seq<TxId>)
    | NewRound(height: nat, round: nat)
    | RoundTimeout(height: nat, round: nat)
    | ProposeTimeout(height: nat, round: nat)
    | Clock(time: int)

  function Carried(e: Event): set<Message> {
    match e
    case Consensus(msg) => {msg}
    case BlockResponse(_, _, ps, _) => set m | m in ps
    case _ => {}
  }

  /** A block response carries precommits and nothing else. */
  predicate WellFormed(e: Event) {
    e.BlockResponse? ==> forall i | 0 <= i < |e.precommits| :: e.precommits[i].Precommit?
  }

  /** What the event did to the handler. */
  twostate predicate Happened(h: NodeHandler, e: Event)
    reads h
  {
    match e
    case Consensus(msg) => if old(h.state).halted then h.Untouched() else h.Taken(msg)
    case Tx(tx) => h.TxTaken(tx)
    case BlockResponse(envelope, block, ps, txs) => h.BlockTaken(envelope, block, ps, txs)
    case NewRound(height, r) =>
      if old(!h.state.halted && height == |h.state.chain| && r > h.state.round) then h.Entered(r) else h.Untouched()
    case RoundTimeout(height, r) =>
      if old(!h.state.halted && height == |h.state.chain| && r == h.state.round) then h.Entered(r + 1)
      else h.Untouched()
    case ProposeTimeout(height, r) => if old(h.MayPropose(height, r)) then h.ProposeSent(r) else h.Untouched()
    case Clock(time) => h.clock == time && h.Untouched()
  }

  method Dispatch(h: NodeHandler, e: Event)
    requires h.Valid() && WellFormed(e)
    modifies h
    ensures h.Valid() && old(h.actions) <= h.actions && h.received == old(h.received) + Carried(e)
    ensures !e.Tx? ==> Late(h.sent) == Late(old(h.sent))
    ensures Happened(h, e) && (old(h.NothingLost()) ==> h.NothingLost())
  {
    hide Recorded, Late, Consistent, Expected, Held, Kept, OnlyEarly, NodeHandler.Taken, NodeHandler.TxTaken,
         NodeHandler.BlockTaken, NodeHandler.Entered, NodeHandler.ProposeSent, NodeHandler.Tables, Grows, Settled;
    HeldSame(h.net, h.state, h.queued);
    match e {
      case Consensus(msg) => h.ReceiveConsensus(msg);
      case Tx(tx) => h.HandleTx(tx);
      case BlockResponse(envelope, block, ps, txs) => h.HandleBlock(envelope, block, ps, txs);
      case NewRound(height, r) => h.HandleNewRound(height, r);
      case RoundTimeout(height, r) => h.HandleRoundTimeout(height, r);
      case ProposeTimeout(height, r) => h.HandleProposeTimeout(height, r);
      case Clock(time) => h.SetClock(time);
    }
    h.HasGrown(old(h.history), old(h.actions), old(h.received));
    if old(h.NothingLost()) {
      LosesNothing(h, old(h.state), old(h.queued), old(h.delivered), e);
    }
  }

  /** A handler that had lost nothing before an event has lost nothing after it. */
  lemma LosesNothing(h: NodeHandler, s: NodeState, queued: seq<Message>, delivered: seq<Message>, e: Event)
    requires Kept(h.net, s, delivered, queued) && OnlyEarly(|s.chain|, s.round, queued) && Grows(s, h.state)
    requires Held(h.net, |s.chain|, s.round, queued, h.state, h.queued)
    requires h.delivered == delivered
             || (&& e.Consensus? && h.delivered == delivered + [e.msg]
                 && (e.msg in h.queued || Settled(h.net, h.state, e.msg)))
    ensures h.NothingLost()
  {
    hide Kept, OnlyEarly, Grows, Settled;
    KeptTwice(h.net, s, h.state, delivered, queued, h.queued);
    if h.delivered != delivered {
      KeptMore(h.net, h.state, delivered, e.msg, h.queued);
    }
  }

  /** Whatever was sent is in the log. */
  ghost predicate Logged(log: seq<Message>, sent: seq<Message>) {
    forall m | m in sent :: m in log
  }

  class Network {
    const net: Net
    const handlers: map<Key, NodeHandler>
    var log: seq<Message>

    ghost function Sys(): System
      reads this, handlers.Values
    {
      System(map k | k in handlers :: handlers[k].state, log)
    }

    /** The handlers are sound, and with few faults so far the invariant of the protocol holds. */
    ghost predicate Valid()
      reads this, handlers.Values
    {
      && (forall k | k in handlers :: handlers[k].key == k && handlers[k].net == net && handlers[k].Valid())
      && (forall k | k in handlers :: Genuine(handlers.Keys, log, handlers[k].received))
      && (forall k | k in handlers :: handlers[k].NothingLost() && Logged(log, handlers[k].sent))
      && (FewFaults(net, Sys()) ==> Inv(net, Sys()))
    }

    constructor (net: Net, handlers: map<Key, NodeHandler>)
      requires forall k | k in handlers ::
                 handlers[k].key == k && handlers[k].net == net && handlers[k].Valid()
                 && handlers[k].state == InitialNode(net, k) && handlers[k].received == {}
                 && handlers[k].delivered == [] && handlers[k].queued == [] && handlers[k].sent == []
      ensures Valid() && this.net == net && this.handlers == handlers && log == []
    {
      this.net, this.handlers, log := net, handlers, [];
      new;
      hide NodeHandler.Valid, NodeHandler.NothingLost, Genuine, Inv, FewFaults;
      InitialInv(net, Sys());
      forall k | k in handlers ensures handlers[k].NothingLost() && Genuine(handlers.Keys, log, handlers[k].received) {
        NothingYet(handlers[k]);
        NoneGenuine(handlers.Keys);
        assert Logged([], []);
      }
    }

    /** An event that a handler may see: its votes of correct validators have been broadcast. */
    predicate Possible(k: Key, e: Event)
      reads this
    {
      && k in handlers && WellFormed(e)
      && forall m | m in Carried(e) && !m.ProposeMsg? && MessageSigner(m) in handlers :: m in log
    }

    /** One event at one node; what it sends is added to the log. */
    method Deliver(k: Key, e: Event)
      requires Valid() && Possible(k, e)
      modifies this, handlers.Values
      ensures Valid() && Happened(handlers[k], e)
      ensures forall j | j in handlers && j != k :: unchanged(handlers[j])
      ensures old(handlers[k].sent) <= handlers[k].sent
      ensures log == old(log) + handlers[k].sent[|old(handlers[k].sent)|..]
      ensures forall j | j in handlers :: old(handlers[j].state).chain <= handlers[j].state.chain
    {
      hide Recorded, IsHistory, Late, FewFaults, Inv, Genuine, CallBy, NodeHandler.Valid, NodeHandler.NothingLost,
           Happened, Logged;
      var h := handlers[k];
      StaysGenuine(handlers.Keys, log, log, h.received, Carried(e));
      ghost var sys, history, actions, received := Sys(), h.history, h.actions, h.received;
      var sent := |h.sent|;
      ghost var before := h.sent;
      assert sys.nodes.Keys == handlers.Keys;
      assert forall j | j in handlers && j != k :: handlers[j].key != h.key && handlers[j] != h;
      h.HistoryNow();
      Dispatch(h, e);
      HandlerCall(h, history, actions, received, sys);
      forall j | j in handlers
        ensures Genuine(handlers.Keys, log + h.sent[sent..], handlers[j].received)
        ensures Logged(log + h.sent[sent..], handlers[j].sent)
      {
        StaysGenuine(handlers.Keys, log, log + h.sent[sent..], handlers[j].received, {});
        StaysLogged(log, if j == k then before else handlers[j].sent, before, h.sent);
      }
      log := log + h.sent[sent..];
      assert Sys().nodes == sys.nodes[k := h.state];
      SystemKept(net, sys, k, h.history, h.actions, |actions|, |h.actions|, Sys());
    }

    /** Any events at any nodes in any order; what is impossible does not happen. */
    method Run(events: seq<(Key, Event)>)
      requires Valid()
      modifies this, handlers.Values
      ensures Valid() && old(log) <= log
      ensures forall k | k in handlers :: old(handlers[k].state).chain <= handlers[k].state.chain
      ensures FewFaults(net, Sys()) ==>
                forall k1, k2, h | k1 in handlers && k2 in handlers
                  && 0 <= h < |old(handlers[k1].state).chain| && h < |handlers[k2].state.chain| ::
                  old(handlers[k1].state).chain[h] == handlers[k2].state.chain[h]
    {
      hide Inv, FewFaults, Genuine, NodeHandler.Valid, NodeHandler.NothingLost, Happened, Logged;
      for i := 0 to |events|
        invariant Valid() && old(log) <= log
        invariant forall k | k in handlers :: old(handlers[k].state).chain <= handlers[k].state.chain
      {
        if Possible(events[i].0, events[i].1) {
          Deliver(events[i].0, events[i].1);
        }
      }
      if FewFaults(net, Sys()) {
        HandlersAgree();
      }
    }

    /** In every chain of a handler, each block above the genesis carries its height, the hash of the
        block before it and the hash of the state, and no transaction is in two blocks. */
    lemma HandlersLink(k: Key, i: nat)
      requires Valid() && k in handlers && |net.genesis| <= i < |handlers[k].state.chain|
      ensures Linked(net, handlers[k].state.chain, i) && net.genesis <= handlers[k].state.chain
    {
      hide Inv, FewFaults, Genuine, NodeHandler.NothingLost, Expected, Recorded, Linked;
    }

    /** No message is lost.  Unless the handler has stopped, a message that came no more than a height
        early is of a past height, or early and waiting, or of a round that has come, and then it counts
        if it is authentic. */
    lemma HandlersKeepMessages(k: Key, m: Message)
      requires Valid() && k in handlers && m in handlers[k].delivered
      ensures var s := handlers[k].state;
              || s.halted || MessageHeight(m) < |s.chain|
              || (m in handlers[k].queued && MessageHeight(m) == |s.chain| + 1)
              || (m in handlers[k].queued && MessageHeight(m) == |s.chain| && MessageRound(m) > s.round)
              || (&& MessageHeight(m) == |s.chain| && MessageRound(m) <= s.round
                  && (Authentic(net, s, m) ==> Counted(net, s, m)))
    {
      hide Inv, FewFaults, Genuine, NodeHandler.Valid, Authentic, Counted;
    }

    /** Agreement of the handlers: wherever two of them hold a block they hold the same one, and
        no vote was sent twice for one height and round. */
    lemma HandlersAgree()
      requires Valid() && FewFaults(net, Sys())
      ensures forall k1, k2, h | k1 in handlers && k2 in handlers
                && 0 <= h < |handlers[k1].state.chain| && h < |handlers[k2].state.chain| ::
                handlers[k1].state.chain[h] == handlers[k2].state.chain[h]
      ensures NoDoubleVotes(log)
    {
      forall k1, k2, h | k1 in handlers && k2 in handlers
                && 0 <= h < |handlers[k1].state.chain| && h < |handlers[k2].state.chain|
        ensures handlers[k1].state.chain[h] == handlers[k2].state.chain[h]
      {
        assert Compatible(Sys().nodes[k1].chain, Sys().nodes[k2].chain);
      }
    }
  }

  lemma NothingYet(h: NodeHandler)
    requires h.queued == [] && h.delivered == []
    ensures h.NothingLost()
  {
  }

  lemma NoneGenuine(correct: set<Key>)
    ensures Genuine(correct, [], {})
  {
  }

  lemma StaysLogged(log: seq<Message>, sent: seq<Message>, before: seq<Message>, after: seq<Message>)
    requires Logged(log, sent) && Logged(log, before) && before <= after
    ensures Logged(log + after[|before|..], sent) && Logged(log + after[|before|..], after)
  {
    forall m | m in after ensures m in log + after[|before|..] {
      var i :| 0 <= i < |after| && after[i] == m;
      assert i < |before| ==> m in before;
      assert i >= |before| ==> after[|before|..][i - |before|] == m;
    }
  }

  lemma StaysGenuine(correct: set<Key>, log: seq<Message>, log': seq<Message>, received: set<Message>,
      more: set<Message>)
    requires Genuine(correct, log, received) && log <= log'
    requires forall m | m in more && !m.ProposeMsg? && MessageSigner(m) in correct :: m in log
    ensures Genuine(correct, log', received + more) && Genuine(correct, log', received)
  {
    assert forall m | m in log :: m in log';
  }

  lemma SystemKept(net: Net, sys: System, k: Key, history: seq<Effect>, actions: seq<Action>, lo: nat, hi: nat,
      sys': System)
    requires CallBy(net, sys, k, history, actions, lo, hi, sys')
    requires FewFaults(net, sys) ==> Inv(net, sys)
    ensures FewFaults(net, sys') ==> Inv(net, sys')
  {
    hide FewFaults, Inv, IsHistory, Deliverable;
    if FewFaults(net, sys') {
      StretchGrows(net, k, history, actions, lo, hi);
      EarlierFewFaults(net, sys, sys');
      CallKeepsInv(net, sys, k, history, actions, lo, hi, sys');
    }
  }
}
