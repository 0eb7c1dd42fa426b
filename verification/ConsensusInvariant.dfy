/**
 Every step of every node keeps the invariant of `ConsensusSafety`, so it holds in every
 state of every run.  The theorems at the end are its consequences.
 */
module ConsensusInvariant {
  import opened Wrappers
  import opened ConsensusModel
  import opened ConsensusSafety

  // ----- What the acting node keeps -----

  lemma SentByActor(net: Net, s: NodeState, a: Action, m: Message)
    requires Enabled(net, s, a) && m in Apply(net, s, a).sent
    ensures MessageSigner(m) == s.key && MessageHeight(m) == Height(s) && !m.ProposeMsg?
    ensures Apply(net, s, a).sent == [m]
  {
    hide AddPrevote, AddPrecommit, NewHeight, HasMajority, MakeBlock;
  }

  lemma OtherNodeKeeps(net: Net, correct: set<Key>, log: seq<Message>, log': seq<Message>, s: NodeState)
    requires NodeInv(net, correct, log, s) && log <= log'
    requires forall m | m in log' && m !in log :: MessageSigner(m) != s.key
    ensures NodeInv(net, correct, log', s)
  {
    assert forall m | m in log :: m in log';
    assert VotesBacked(net, correct, log', s);
    forall c | c in s.certs
      ensures CertBacked(net, correct, log', s.chain, c)
    {
      assert CertBacked(net, correct, log, s.chain, c);
      PrecommitQuorumGrows(net.validators(s.chain[..c.0]), correct, log, log', c.0, c.1, c.2);
    }
    forall m | m in log' && MessageSigner(m) == s.key
      ensures OwnMessage(s, m)
    {
      assert m in log;
    }
    assert forall r | r in s.ourPrevotes :: RecordedPrevote(log, s, r, s.ourPrevotes[r]);
    if s.lockedPropose.Some? {
      PrevoteQuorumGrows(Keys(net, s), correct, log, log', Height(s), s.lockedRound, s.lockedPropose.value);
    }
  }

  /** The validator id of a node names its own key and nobody else's. */
  lemma OwnId(net: Net, correct: set<Key>, s: NodeState, id: nat)
    requires Tolerable(Keys(net, s), correct) && id < |Keys(net, s)|
    ensures ValidatorId(net, s) == Some(id) <==> Keys(net, s)[id] == s.key
  {
  }

  lemma RecvPrevoteKeeps(net: Net, correct: set<Key>, log: seq<Message>, s: NodeState, m: Message)
    requires Tolerable(Keys(net, s), correct) && NodeInv(net, correct, log, s)
    requires Enabled(net, s, RecvPrevote(m)) && Deliverable(correct, log, RecvPrevote(m))
    ensures NodeInv(net, correct, log, AddPrevote(net, s, m))
  {
    OwnId(net, correct, s, m.validator);
    var s' := AddPrevote(net, s, m);
    if ValidatorId(net, s) == Some(m.validator) {
      assert OwnMessage(s, m);
      assert s'.ourPrevotes == s.ourPrevotes;
    }
    if m.signer in correct {
      assert IsPrevote(m, m.signer, m.height, m.round, m.proposeHash);
    }
    assert VotesBacked(net, correct, log, s');
    SameOwn(log, s, s');
    SameCertsAndLock(net, correct, log, s, s');
  }

  /** States that agree on everything the own-vote invariant reads. */
  lemma SameOwn(log: seq<Message>, s: NodeState, s': NodeState)
    requires OwnVotes(log, s)
    requires s'.key == s.key && s'.chain == s.chain && s'.ourPrevotes == s.ourPrevotes && s.round <= s'.round
    requires s'.lockedRound == s.lockedRound && s'.lockedPropose == s.lockedPropose
    ensures OwnVotes(log, s')
  {
    forall m | m in log && MessageSigner(m) == s'.key
      ensures OwnMessage(s', m)
    {
      assert OwnMessage(s, m);
    }
    forall r | r in s'.ourPrevotes
      ensures RecordedPrevote(log, s', r, s'.ourPrevotes[r])
    {
      assert RecordedPrevote(log, s, r, s.ourPrevotes[r]);
    }
  }

  lemma SameCertsAndLock(net: Net, correct: set<Key>, log: seq<Message>, s: NodeState, s': NodeState)
    requires CertsBacked(net, correct, log, s) && LockBacked(net, correct, log, s)
    requires s'.chain == s.chain && s'.certs == s.certs && s'.proposes == s.proposes && s.round <= s'.round
    requires s'.lockedRound == s.lockedRound && s'.lockedPropose == s.lockedPropose
    ensures CertsBacked(net, correct, log, s') && LockBacked(net, correct, log, s')
  {
    forall c | c in s'.certs
      ensures CertBacked(net, correct, log, s'.chain, c)
    {
      assert CertBacked(net, correct, log, s.chain, c);
    }
  }

  /** A majority seen by the node is a quorum of the log. */
  lemma SeenPrecommitMajority(net: Net, correct: set<Key>, log: seq<Message>, s: NodeState, r: nat, blockHash: Hash)
    requires VotesBacked(net, correct, log, s) && HasMajority(net, s, Voters(s.precommits, r, blockHash))
    ensures PrecommitQuorum(Keys(net, s), correct, log, Height(s), r, blockHash)
  {
    assert PrecommittedBy(Keys(net, s), correct, log, Height(s), r, blockHash, Voters(s.precommits, r, blockHash));
  }

  lemma SeenPrevoteMajority(net: Net, correct: set<Key>, log: seq<Message>, s: NodeState, r: nat, hash: Hash)
    requires VotesBacked(net, correct, log, s) && HasMajority(net, s, Voters(s.prevotes, r, hash))
    ensures PrevoteQuorum(Keys(net, s), correct, log, Height(s), r, hash)
  {
    assert PrevotedBy(Keys(net, s), correct, log, Height(s), r, hash, Voters(s.prevotes, r, hash));
  }

  /** Adding an authentic precommit that is in the log, or whose sender is faulty. */
  lemma AddPrecommitKeeps(net: Net, correct: set<Key>, log: seq<Message>, s: NodeState, m: Message)
    requires Tolerable(Keys(net, s), correct) && NodeInv(net, correct, log, s)
    requires m.Precommit? && Authentic(net, s, m) && (MessageSigner(m) in correct ==> m in log)
    ensures NodeInv(net, correct, log, AddPrecommit(net, s, m))
  {
    hide VotesBacked, OwnVotes, LockBacked;
    var s' := AddPrecommit(net, s, m);
    PrecommitCounted(net, correct, log, s, m);
    SameOwn(log, s, s');
    SameCertsAndLock(net, correct, log, s, s'.(certs := s.certs));
    SameLock(net, correct, log, s, s');
    forall c | c in s'.certs
      ensures CertBacked(net, correct, log, s'.chain, c)
    {
      if c in s.certs {
        assert CertBacked(net, correct, log, s.chain, c);
      } else {
        SeenPrecommitMajority(net, correct, log, s', m.round, m.blockHash);
        assert s'.chain[..c.0] == s'.chain;
      }
    }
  }

  lemma PrecommitCounted(net: Net, correct: set<Key>, log: seq<Message>, s: NodeState, m: Message)
    requires VotesBacked(net, correct, log, s) && m.Precommit? && Authentic(net, s, m)
    requires MessageSigner(m) in correct ==> m in log
    ensures VotesBacked(net, correct, log, AddPrecommit(net, s, m))
  {
    hide PrevotesBacked, PrecommitsBacked, HasMajority;
    PrecommitVoteCounted(Keys(net, s), correct, log, Height(s), s.precommits, m);
  }

  lemma PrecommitVoteCounted(keys: seq<Key>, correct: set<Key>, log: seq<Message>, h: nat, votes: Votes, m: Message)
    requires PrecommitsBacked(keys, correct, log, h, votes) && m.Precommit? && m.height == h
    requires m.validator < |keys| && keys[m.validator] == m.signer && (m.signer in correct ==> m in log)
    ensures PrecommitsBacked(keys, correct, log, h, AddVote(votes, m.round, m.blockHash, m.validator))
  {
    if m.signer in correct {
      assert IsPrecommit(m, m.signer, h, m.round, m.blockHash);
    }
  }

  lemma SameLock(net: Net, correct: set<Key>, log: seq<Message>, s: NodeState, s': NodeState)
    requires LockBacked(net, correct, log, s) && s'.chain == s.chain && s'.proposes == s.proposes
    requires s'.round == s.round && s'.lockedRound == s.lockedRound && s'.lockedPropose == s.lockedPropose
    ensures LockBacked(net, correct, log, s')
  {
    hide PrevoteQuorum;
  }

  lemma PrevoteCounted(keys: seq<Key>, correct: set<Key>, log: seq<Message>, h: nat, votes: Votes, m: Message)
    requires PrevotesBacked(keys, correct, log, h, votes)
    requires m.Prevote? && m.height == h && m.validator < |keys| && keys[m.validator] == m.signer
    ensures PrevotesBacked(keys, correct, log + [m], h, AddVote(votes, m.round, m.proposeHash, m.validator))
  {
    assert IsPrevote(m, m.signer, h, m.round, m.proposeHash) && m in log + [m];
    assert forall x | x in log :: x in log + [m];
  }

  lemma PrevoteRecorded(log: seq<Message>, s: NodeState, s': NodeState, m: Message)
    requires OwnVotes(log, s)
    requires m.Prevote? && m.height == Height(s) && m.signer == s.key
    requires m.round !in s.ourPrevotes || s.ourPrevotes[m.round] == m
    requires Current(m.proposeHash, Height(s)) ==> m.round <= s.round
    requires s'.key == s.key && s'.chain == s.chain && s'.round == s.round
    requires s'.lockedRound == s.lockedRound && s'.lockedPropose == s.lockedPropose
    requires s'.ourPrevotes == s.ourPrevotes[m.round := m]
    ensures OwnVotes(log + [m], s')
  {
    var log' := log + [m];
    forall x | x in log' && MessageSigner(x) == s'.key
      ensures OwnMessage(s', x)
    {
      if x in log {
        assert OwnMessage(s, x);
      }
    }
    forall r | r in s'.ourPrevotes
      ensures RecordedPrevote(log', s', r, s'.ourPrevotes[r])
    {
      if r != m.round {
        assert RecordedPrevote(log, s, r, s.ourPrevotes[r]);
      }
    }
  }

  /** Sending a prevote; a propose of this height is only prevoted up to the current round. */
  lemma SendPrevoteKeeps(net: Net, correct: set<Key>, log: seq<Message>, s: NodeState, round: nat, hash: Hash)
    requires Tolerable(Keys(net, s), correct) && NodeInv(net, correct, log, s) && !s.halted
    requires Current(hash, Height(s)) ==> round <= s.round
    ensures var e := SendPrevote(net, s, round, hash); NodeInv(net, correct, log + e.sent, e.state)
  {
    hide VotesBacked, CertsBacked, OwnVotes, LockBacked;
    var e := SendPrevote(net, s, round, hash);
    var s', log' := e.state, log + e.sent;
    if e.sent == [] {
      assert log' == log;
      SameOwn(log, s, s');
      SameCertsAndLock(net, correct, log, s, s');
      SameVotes(net, correct, log, s, s');
    } else {
      SentPrevoteKeeps(net, correct, log, s, s', e.sent[0]);
    }
  }

  lemma SameVotes(net: Net, correct: set<Key>, log: seq<Message>, s: NodeState, s': NodeState)
    requires VotesBacked(net, correct, log, s) && s'.chain == s.chain
    requires s'.prevotes == s.prevotes && s'.precommits == s.precommits
    ensures VotesBacked(net, correct, log, s')
  {
    hide PrevotesBacked, PrecommitsBacked;
  }

  lemma SentPrevoteKeeps(net: Net, correct: set<Key>, log: seq<Message>, s: NodeState, s': NodeState, m: Message)
    requires NodeInv(net, correct, log, s) && m.Prevote? && m.height == Height(s) && m.signer == s.key
    requires ValidatorId(net, s) == Some(m.validator) && s' == AddPrevote(net, s, m) && !s'.halted
    requires Current(m.proposeHash, Height(s)) ==> m.round <= s.round
    ensures NodeInv(net, correct, log + [m], s')
  {
    hide CertsBacked, OwnVotes, LockBacked, PrevotesBacked, PrecommitsBacked;
    var log' := log + [m];
    PrevoteCounted(Keys(net, s), correct, log, Height(s), s.prevotes, m);
    PrecommitsStayBacked(Keys(net, s), correct, log, log', Height(s), s.precommits);
    PrevoteRecorded(log, s, s', m);
    CertsAndLockGrow(net, correct, log, log', s, s');
  }

  lemma PrecommitsStayBacked(keys: seq<Key>, correct: set<Key>, log: seq<Message>, log': seq<Message>, h: nat,
      votes: Votes)
    requires PrecommitsBacked(keys, correct, log, h, votes) && log <= log'
    ensures PrecommitsBacked(keys, correct, log', h, votes)
  {
    assert forall x | x in log :: x in log';
  }

  lemma CertsAndLockGrow(net: Net, correct: set<Key>, log: seq<Message>, log': seq<Message>, s: NodeState,
      s': NodeState)
    requires CertsBacked(net, correct, log, s) && LockBacked(net, correct, log, s)
    requires forall m | m in log :: m in log'
    requires s'.chain == s.chain && s'.certs == s.certs && s'.proposes == s.proposes && s.round == s'.round
    requires s'.lockedRound == s.lockedRound && s'.lockedPropose == s.lockedPropose
    ensures CertsBacked(net, correct, log', s') && LockBacked(net, correct, log', s')
  {
    forall c | c in s'.certs
      ensures CertBacked(net, correct, log', s'.chain, c)
    {
      assert CertBacked(net, correct, log, s.chain, c);
      PrecommitQuorumGrows(net.validators(s.chain[..c.0]), correct, log, log', c.0, c.1, c.2);
    }
    if s.lockedPropose.Some? {
      PrevoteQuorumGrows(Keys(net, s), correct, log, log', Height(s), s.lockedRound, s.lockedPropose.value);
    }
  }

  lemma LockKeeps(net: Net, correct: set<Key>, log: seq<Message>, s: NodeState, hash: Hash, round: nat, time: int)
    requires Tolerable(Keys(net, s), correct) && NodeInv(net, correct, log, s)
    requires Enabled(net, s, LockOn(hash, round, time))
    ensures var e := Apply(net, s, LockOn(hash, round, time)); NodeInv(net, correct, log + e.sent, e.state)
  {
    hide NodeInv, SendPrecommit;
    LockMoved(net, correct, log, s, hash, round);
    SendPrecommitKeeps(net, correct, log, s.(lockedRound := round, lockedPropose := Some(hash)), hash, time);
  }

  /** The lock on a propose with a majority, before the precommit. */
  lemma LockMoved(net: Net, correct: set<Key>, log: seq<Message>, s: NodeState, hash: Hash, round: nat)
    requires NodeInv(net, correct, log, s) && s.lockedRound < round <= s.round && hash in s.proposes
    requires HasMajority(net, s, Voters(s.prevotes, round, hash))
    ensures NodeInv(net, correct, log, s.(lockedRound := round, lockedPropose := Some(hash)))
  {
    hide VotesBacked, PrevoteQuorum, HasMajority;
    var s1 := s.(lockedRound := round, lockedPropose := Some(hash));
    SeenPrevoteMajority(net, correct, log, s, round, hash);
    SameVotes(net, correct, log, s, s1);
    assert LockBacked(net, correct, log, s1);
    forall c | c in s1.certs
      ensures CertBacked(net, correct, log, s1.chain, c)
    {
      assert CertBacked(net, correct, log, s.chain, c);
    }
    LaterLockOwn(log, s, s1);
  }

  lemma LaterLockOwn(log: seq<Message>, s: NodeState, s1: NodeState)
    requires OwnVotes(log, s) && s.lockedRound < s1.lockedRound
    requires s1 == s.(lockedRound := s1.lockedRound, lockedPropose := s1.lockedPropose)
    ensures OwnVotes(log, s1)
  {
    forall m | m in log && MessageSigner(m) == s1.key
      ensures OwnMessage(s1, m)
    {
      assert OwnMessage(s, m);
    }
    forall r | r in s1.ourPrevotes
      ensures RecordedPrevote(log, s1, r, s1.ourPrevotes[r])
    {
      assert RecordedPrevote(log, s, r, s.ourPrevotes[r]);
    }
  }

  lemma SendPrecommitKeeps(net: Net, correct: set<Key>, log: seq<Message>, s: NodeState, hash: Hash, time: int)
    requires Tolerable(Keys(net, s), correct) && NodeInv(net, correct, log, s)
    requires hash.ProposeHash? && s.lockedPropose == Some(hash) && s.lockedRound >= 1 && !s.halted
    ensures var e := SendPrecommit(net, s, s.lockedRound, hash, time); NodeInv(net, correct, log + e.sent, e.state)
  {
    hide VotesBacked, CertsBacked, OwnVotes, LockBacked, HaveIncompatiblePrevotes, HasMajority, MakeBlock;
    var e := SendPrecommit(net, s, s.lockedRound, hash, time);
    if e.sent == [] {
      assert log + e.sent == log;
      SameOwn(log, s, e.state);
      SameCertsAndLock(net, correct, log, s, e.state);
      SameVotes(net, correct, log, s, e.state);
    } else {
      var m := e.sent[0];
      assert e.sent == [m] && e.state == AddPrecommit(net, s, m);
      PrecommitSentKeeps(net, correct, log, s, m);
      OwnId(net, correct, s, m.validator);
      AddPrecommitKeeps(net, correct, log + [m], s, m);
    }
  }

  lemma PrecommitSentKeeps(net: Net, correct: set<Key>, log: seq<Message>, s: NodeState, m: Message)
    requires NodeInv(net, correct, log, s)
    requires m.Precommit? && m.height == Height(s) && m.signer == s.key && m.round == s.lockedRound >= 1
    requires Some(m.proposeHash) == s.lockedPropose
    ensures NodeInv(net, correct, log + [m], s)
  {
    var log' := log + [m];
    assert forall x | x in log :: x in log';
    assert VotesBacked(net, correct, log', s);
    CertsAndLockGrow(net, correct, log, log', s, s);
    forall x | x in log' && MessageSigner(x) == s.key
      ensures OwnMessage(s, x)
    {
    }
    forall r | r in s.ourPrevotes
      ensures RecordedPrevote(log', s, r, s.ourPrevotes[r])
    {
      assert RecordedPrevote(log, s, r, s.ourPrevotes[r]);
    }
  }

  lemma EnterRoundKeeps(net: Net, correct: set<Key>, log: seq<Message>, s: NodeState, r: nat)
    requires Tolerable(Keys(net, s), correct) && NodeInv(net, correct, log, s) && s.round < r
    ensures var s1 := s.(round := r); NodeInv(net, correct, log, s1)
  {
    var s1 := s.(round := r);
    SameOwn(log, s, s1);
    SameCertsAndLock(net, correct, log, s, s1);
    assert VotesBacked(net, correct, log, s1);
  }

  function Signers(ps: seq<Message>): (r: set<nat>)
    ensures forall v :: v in r <==> exists i | 0 <= i < |ps| :: MessageValidator(ps[i]) == v
  {
    if ps == [] then {} else Signers(ps[..|ps| - 1]) + {MessageValidator(ps[|ps| - 1])}
  }

  lemma {:induction false} SignersCount(ps: seq<Message>)
    requires forall i, j | 0 <= i < j < |ps| :: MessageValidator(ps[i]) != MessageValidator(ps[j])
    ensures |Signers(ps)| == |ps|
  {
    if ps == [] {
    } else {
      var front := ps[..|ps| - 1];
      SignersCount(front);
      assert MessageValidator(ps[|ps| - 1]) !in Signers(front);
    }
  }

  /** A certificate that passes the check of `handle_block` is a precommit quorum. */
  lemma CertificateIsQuorum(net: Net, correct: set<Key>, log: seq<Message>, s: NodeState, ps: seq<Message>,
      blockHash: Hash)
    requires ValidCertificate(net, s, ps, blockHash)
    requires Deliverable(correct, log, LearnCertificate(ps, blockHash))
    ensures PrecommitQuorum(Keys(net, s), correct, log, Height(s), MessageRound(ps[0]), blockHash)
  {
    SignersCount(ps);
    var q, r := Signers(ps), MessageRound(ps[0]);
    forall v | v in q && Keys(net, s)[v] in correct
      ensures Precommitted(log, Keys(net, s)[v], Height(s), r, blockHash)
    {
      var i :| 0 <= i < |ps| && MessageValidator(ps[i]) == v;
      assert IsPrecommit(ps[i], Keys(net, s)[v], Height(s), r, blockHash);
    }
    assert PrecommittedBy(Keys(net, s), correct, log, Height(s), r, blockHash, q);
  }

  lemma LearnCertificateKeeps(net: Net, correct: set<Key>, log: seq<Message>, s: NodeState, ps: seq<Message>,
      blockHash: Hash)
    requires NodeInv(net, correct, log, s)
    requires ValidCertificate(net, s, ps, blockHash)
    requires Deliverable(correct, log, LearnCertificate(ps, blockHash))
    ensures NodeInv(net, correct, log, s.(certs := s.certs + {(Height(s), MessageRound(ps[0]), blockHash)}))
  {
    var s' := s.(certs := s.certs + {(Height(s), MessageRound(ps[0]), blockHash)});
    CertificateIsQuorum(net, correct, log, s, ps, blockHash);
    SameOwn(log, s, s');
    SameCertsAndLock(net, correct, log, s, s'.(certs := s.certs));
    assert VotesBacked(net, correct, log, s');
    assert LockBacked(net, correct, log, s');
    forall c | c in s'.certs
      ensures CertBacked(net, correct, log, s'.chain, c)
    {
      if c in s.certs {
        assert CertBacked(net, correct, log, s.chain, c);
      } else {
        assert s'.chain[..c.0] == s.chain;
      }
    }
  }

  lemma CommitKeeps(net: Net, correct: set<Key>, log: seq<Message>, s: NodeState, b: Block)
    requires NodeInv(net, correct, log, s)
    ensures NodeInv(net, correct, log, NewHeight(s, b))
  {
    var s' := NewHeight(s, b);
    forall c | c in s'.certs
      ensures CertBacked(net, correct, log, s'.chain, c)
    {
      assert CertBacked(net, correct, log, s.chain, c);
      assert s'.chain[..c.0] == s.chain[..c.0];
    }
    forall m | m in log && MessageSigner(m) == s'.key
      ensures OwnMessage(s', m)
    {
      assert OwnMessage(s, m);
    }
  }

  /** Any enabled action keeps the invariant of the node that takes it. */
  lemma ActorKeeps(net: Net, correct: set<Key>, log: seq<Message>, s: NodeState, a: Action)
    requires Tolerable(Keys(net, s), correct) && NodeInv(net, correct, log, s)
    requires Enabled(net, s, a) && Deliverable(correct, log, a)
    ensures var e := Apply(net, s, a); NodeInv(net, correct, log + e.sent, e.state)
  {
    var e := Apply(net, s, a);
    match a
    case RecvPrevote(m) =>
      RecvPrevoteKeeps(net, correct, log, s, m);
      assert log + e.sent == log;
    case RecvPrecommit(m) =>
      AddPrecommitKeeps(net, correct, log, s, m);
      assert log + e.sent == log;
    case PrevoteFullPropose(hash, round) =>
      SendPrevoteKeeps(net, correct, log, s, round, hash);
    case PrevoteInLock(hash, round, _) =>
      SendPrevoteKeeps(net, correct, log, s, round, hash);
    case LockOn(hash, round, time) =>
      LockKeeps(net, correct, log, s, hash, round, time);
    case EnterRound(r) =>
      EnterRoundKeeps(net, correct, log, s, r);
      if s.lockedPropose.Some? {
        SendPrevoteKeeps(net, correct, log, s.(round := r), r, s.lockedPropose.value);
      } else {
        assert log + e.sent == log;
      }
    case LearnCertificate(ps, blockHash) =>
      LearnCertificateKeeps(net, correct, log, s, ps, blockHash);
      assert log + e.sent == log;
    case Commit(b) =>
      CommitKeeps(net, correct, log, s, b);
      assert log + e.sent == log;
    case LearnPropose(p) =>
      assert log + e.sent == log;
      SameOwn(log, s, e.state);
      SameCertsAndLock(net, correct, log, s, e.state.(proposes := s.proposes));
      assert VotesBacked(net, correct, log, e.state) && CertsBacked(net, correct, log, e.state);
      assert LockBacked(net, correct, log, e.state);
    case Halt =>
      assert log + e.sent == log;
      SameOwn(log, s, e.state);
      SameCertsAndLock(net, correct, log, s, e.state);
      assert VotesBacked(net, correct, log, e.state);
  }

  // ----- What the log keeps -----

  /** No node votes twice in one slot, even where the handler sends without a guard. */
  lemma NewVoteIsFresh(net: Net, correct: set<Key>, log: seq<Message>, s: NodeState, a: Action, m: Message)
    requires Tolerable(Keys(net, s), correct) && NodeInv(net, correct, log, s)
    requires NoDoubleVotes(log) && Enabled(net, s, a) && Apply(net, s, a).sent == [m]
    ensures NoDoubleVotes(log + [m])
  {
    var log' := log + [m];
    forall i, j | 0 <= i < j < |log'| && SameSlot(log'[i], log'[j])
      ensures log'[i].Prevote? != log'[j].Prevote?
    {
      if j == |log| {
        var x := log[i];
        assert x in log && OwnMessage(s, x);
        if x.Prevote? {
          assert RecordedPrevote(log, s, x.round, s.ourPrevotes[x.round]);
        }
      }
    }
  }

  lemma NewPrecommitJustified(net: Net, correct: set<Key>, log: seq<Message>, s: NodeState, a: Action, m: Message)
    requires NodeInv(net, correct, log, s)
    requires Enabled(net, s, a) && Apply(net, s, a).sent == [m]
    ensures PrecommitJustified(net, correct, log, s.chain, m)
  {
    hide AddPrecommit, AddPrevote, CertsBacked, OwnVotes, PrevoteQuorum, VotesBacked;
    if m.Precommit? {
      SeenPrevoteMajority(net, correct, log, s, a.round, a.hash);
      assert s.chain[..m.height] == s.chain;
    }
  }

  /** A new prevote is compatible with the node's earlier precommits, or backed by a newer quorum. */
  lemma NewPrevoteJustified(net: Net, correct: set<Key>, log: seq<Message>, s: NodeState, a: Action, m: Message,
      c: Message)
    requires NodeInv(net, correct, log, s) && c in log
    requires Enabled(net, s, a) && Apply(net, s, a).sent == [m]
    ensures PrevoteJustified(net, correct, log + [m], s.chain, |log|, c)
  {
    assert (log + [m])[..|log|] == log && (log + [m])[|log|] == m;
    if m.Prevote? && c.Precommit? && c.signer == m.signer && c.height == m.height && c.round < m.round
       && Current(m.proposeHash, m.height) && m.proposeHash != c.proposeHash {
      assert OwnMessage(s, c);
      assert s.chain[..m.height] == s.chain;
      if s.lockedPropose == Some(m.proposeHash) {
        assert PrevoteQuorum(Keys(net, s), correct, log, m.height, s.lockedRound, m.proposeHash);
      } else {
        SeenPrevoteMajority(net, correct, log, s, a.quorumRound, m.proposeHash);
        assert PrevoteQuorum(Keys(net, s), correct, log, m.height, a.quorumRound, m.proposeHash);
      }
    }
  }

  /** Earlier prevotes are compatible with a new precommit: this is what the check for
      incompatible prevotes is for. */
  lemma OldPrevotesAllowPrecommit(net: Net, correct: set<Key>, log: seq<Message>, s: NodeState, a: Action,
      m: Message, j: nat)
    requires NodeInv(net, correct, log, s) && j < |log|
    requires Enabled(net, s, a) && Apply(net, s, a).sent == [m] && m.Precommit?
    ensures PrevoteJustified(net, correct, log + [m], s.chain, j, m)
  {
    var v := (log + [m])[j];
    assert v == log[j] && v in log;
    if v.Prevote? && m.signer == v.signer && m.height == v.height && m.round < v.round
       && Current(v.proposeHash, v.height) {
      assert OwnMessage(s, v);
      assert RecordedPrevote(log, s, v.round, s.ourPrevotes[v.round]);
      assert v.proposeHash == m.proposeHash;
    }
  }

  lemma OldJustified(net: Net, correct: set<Key>, log: seq<Message>, log': seq<Message>, chain: seq<Block>,
      chain': seq<Block>, j: nat, m: Message, c: Message)
    requires log <= log' && chain <= chain' && j < |log| && MessageHeight(m) <= |chain|
    requires MessageHeight(log[j]) <= |chain|
    ensures PrecommitJustified(net, correct, log, chain, m) ==> PrecommitJustified(net, correct, log', chain', m)
    ensures PrevoteJustified(net, correct, log, chain, j, c) ==> PrevoteJustified(net, correct, log', chain', j, c)
  {
    assert log'[..j] == log[..j];
    assert chain'[..MessageHeight(m)] == chain[..MessageHeight(m)];
    assert chain'[..MessageHeight(log[j])] == chain[..MessageHeight(log[j])];
    assert forall x | x in log :: x in log';
    if m.Precommit? && PrecommitJustified(net, correct, log, chain, m) {
      PrevoteQuorumGrows(net.validators(chain[..m.height]), correct, log, log', m.height, m.round, m.proposeHash);
    }
  }

  lemma ChainsGrow(net: Net, sys: System, k: Key, a: Action, sys': System, k': Key)
    requires StepBy(net, sys, k, a, sys') && k' in sys.nodes
    ensures k' in sys'.nodes && sys.nodes[k'].chain <= sys'.nodes[k'].chain
    ensures sys'.nodes.Keys == sys.nodes.Keys && sys.log <= sys'.log
    ensures !a.Commit? ==> sys'.nodes[k'].chain == sys.nodes[k'].chain
    ensures k' != k ==> sys'.nodes[k'] == sys.nodes[k']
  {
  }

  lemma SignerKnows(net: Net, sys: System, m: Message)
    requires Inv(net, sys) && m in sys.log
    ensures MessageSigner(m) in sys.nodes && MessageHeight(m) <= |sys.nodes[MessageSigner(m)].chain|
  {
    assert MessageOk(net, sys, m);
    assert NodeOk(net, sys, MessageSigner(m));
    assert OwnMessage(sys.nodes[MessageSigner(m)], m);
  }

  lemma MessagesKept(net: Net, sys: System, k: Key, a: Action, sys': System, m: Message)
    requires FewFaults(net, sys) && Inv(net, sys) && StepBy(net, sys, k, a, sys')
    ensures MessageOk(net, sys', m)
  {
    var correct, s := sys.nodes.Keys, sys.nodes[k];
    ChainsGrow(net, sys, k, a, sys', k);
    if m in sys.log {
      SignerKnows(net, sys, m);
      var signer := MessageSigner(m);
      ChainsGrow(net, sys, k, a, sys', signer);
      assert MessageOk(net, sys, m);
      var j :| 0 <= j < |sys.log| && sys.log[j] == m;
      OldJustified(net, correct, sys.log, sys'.log, sys.nodes[signer].chain, sys'.nodes[signer].chain, j, m, m);
    } else if m in sys'.log {
      SentByActor(net, s, a, m);
      assert NodeOk(net, sys, k);
      NewPrecommitJustified(net, correct, sys.log, s, a, m);
      if m.Precommit? {
        assert forall x | x in sys.log :: x in sys'.log;
        PrevoteQuorumGrows(net.validators(s.chain[..m.height]), correct, sys.log, sys'.log, m.height, m.round,
          m.proposeHash);
      }
    }
  }

  lemma OldPrevotesKept(net: Net, sys: System, k: Key, a: Action, sys': System, j: nat, c: Message)
    requires Inv(net, sys) && StepBy(net, sys, k, a, sys') && j < |sys.log| && c in sys.log
    ensures PrevoteOk(net, sys', j, c)
  {
    var v := sys.log[j];
    SignerKnows(net, sys, v);
    var signer := MessageSigner(v);
    ChainsGrow(net, sys, k, a, sys', signer);
    assert PrevoteOk(net, sys, j, c);
    OldJustified(net, sys.nodes.Keys, sys.log, sys'.log, sys.nodes[signer].chain, sys'.nodes[signer].chain, j, v, c);
  }

  lemma PrevotesKept(net: Net, sys: System, k: Key, a: Action, sys': System, j: nat, c: Message)
    requires FewFaults(net, sys) && Inv(net, sys) && StepBy(net, sys, k, a, sys')
    ensures PrevoteOk(net, sys', j, c)
  {
    var s, sent := sys.nodes[k], Apply(net, sys.nodes[k], a).sent;
    if j < |sys.log| && c in sys.log {
      OldPrevotesKept(net, sys, k, a, sys', j, c);
    } else if j < |sys'.log| && c in sys'.log {
      var m := sent[0];
      SentByActor(net, s, a, m);
      ChainsGrow(net, sys, k, a, sys', k);
      assert NodeOk(net, sys, k);
      assert sys'.log == sys.log + [m];
      if j == |sys.log| {
        if c in sys.log {
          NewPrevoteJustified(net, sys.nodes.Keys, sys.log, s, a, m, c);
        }
      } else if m.Precommit? && MessageSigner(sys.log[j]) == k {
        OldPrevotesAllowPrecommit(net, sys.nodes.Keys, sys.log, s, a, m, j);
      }
    }
  }

  lemma LogKept(net: Net, sys: System, k: Key, a: Action, sys': System)
    requires FewFaults(net, sys) && Inv(net, sys) && StepBy(net, sys, k, a, sys')
    ensures LogInv(net, sys')
  {
    forall m
      ensures MessageOk(net, sys', m)
    {
      MessagesKept(net, sys, k, a, sys', m);
    }
    forall j, c
      ensures PrevoteOk(net, sys', j, c)
    {
      PrevotesKept(net, sys, k, a, sys', j, c);
    }
    var s := sys.nodes[k];
    var sent := Apply(net, s, a).sent;
    if sent == [] {
      assert sys'.log == sys.log;
    } else {
      SentByActor(net, s, a, sent[0]);
      assert NodeOk(net, sys, k);
      ActorTolerable(net, sys, k);
      NewVoteIsFresh(net, sys.nodes.Keys, sys.log, s, a, sent[0]);
    }
  }

  // ----- What the chains keep -----

  lemma PrefixIsCommon(sys: System, k: Key, h: nat)
    requires ChainsInv(sys) && k in sys.nodes && h <= |sys.nodes[k].chain|
    ensures CommonPrefix(sys, sys.nodes[k].chain[..h])
  {
    forall k' | k' in sys.nodes && h <= |sys.nodes[k'].chain|
      ensures sys.nodes[k].chain[..h] <= sys.nodes[k'].chain
    {
      assert Compatible(sys.nodes[k].chain, sys.nodes[k'].chain);
    }
  }

  /** The certificate behind a commit is always one of the height being committed, although
      the node keeps certificates for unknown proposes when it moves to a new height. */
  lemma CommitHasQuorum(net: Net, sys: System, k: Key, b: Block) returns (r: nat)
    requires FewFaults(net, sys) && Inv(net, sys)
    requires k in sys.nodes && Enabled(net, sys.nodes[k], Commit(b))
    ensures var s := sys.nodes[k];
            PrecommitQuorum(Keys(net, s), sys.nodes.Keys, sys.log, Height(s), r, BlockHash(b))
  {
    var s := sys.nodes[k];
    var c :| c in s.certs && c.2 == BlockHash(b);
    assert NodeOk(net, sys, k);
    assert CertBacked(net, sys.nodes.Keys, sys.log, s.chain, c);
    var prefix := s.chain[..c.0];
    PrefixIsCommon(sys, k, c.0);
    assert Tolerable(net.validators(prefix), sys.nodes.Keys);
    var p, q := PrecommitQuorumPropose(net, sys, prefix, c.1, c.2);
    assert b.height == c.0 == Height(s);
    assert prefix == s.chain;
    r := c.1;
  }

  /** A node that commits extends the chain the way every other correct node did. */
  lemma CommitAgrees(net: Net, sys: System, k: Key, b: Block, k': Key)
    requires FewFaults(net, sys) && Inv(net, sys)
    requires k in sys.nodes && k' in sys.nodes && Enabled(net, sys.nodes[k], Commit(b))
    ensures Compatible(sys.nodes[k].chain + [b], sys.nodes[k'].chain)
  {
    var mine, other := sys.nodes[k].chain, sys.nodes[k'].chain;
    var h := |mine|;
    assert Compatible(mine, other);
    if h < |other| {
      var r := CommitHasQuorum(net, sys, k, b);
      assert other[..h] == mine;
      assert NodeOk(net, sys, k) && NodeOk(net, sys, k');
      assert Accepted(net, sys.nodes.Keys, sys.log, other, h);
      var r' :| AcceptedAt(net, sys.nodes.Keys, sys.log, other, h, r');
      PrefixIsCommon(sys, k, h);
      assert mine[..h] == mine;
      ActorTolerable(net, sys, k);
      OneBlockPerHeight(net, sys, mine, r, BlockHash(b), r', BlockHash(other[h]));
      assert mine + [b] <= other;
    }
  }

  lemma ChainsKept(net: Net, sys: System, k: Key, a: Action, sys': System)
    requires FewFaults(net, sys) && Inv(net, sys) && StepBy(net, sys, k, a, sys')
    ensures ChainsInv(sys')
  {
    forall k1, k2 | k1 in sys'.nodes && k2 in sys'.nodes
      ensures Compatible(sys'.nodes[k1].chain, sys'.nodes[k2].chain)
    {
      ChainsGrow(net, sys, k, a, sys', k1);
      ChainsGrow(net, sys, k, a, sys', k2);
      assert Compatible(sys.nodes[k1].chain, sys.nodes[k2].chain);
      if a.Commit? && k1 == k && k2 != k {
        CommitAgrees(net, sys, k, a.block, k2);
      } else if a.Commit? && k2 == k && k1 != k {
        CommitAgrees(net, sys, k, a.block, k1);
      }
    }
  }

  lemma CertifiedKept(net: Net, sys: System, k: Key, a: Action, sys': System, k': Key)
    requires FewFaults(net, sys) && Inv(net, sys) && StepBy(net, sys, k, a, sys') && k' in sys.nodes
    ensures Certified(net, sys.nodes.Keys, sys'.log, sys'.nodes[k'].chain)
  {
    ChainsGrow(net, sys, k, a, sys', k');
    var old', new' := sys.nodes[k'].chain, sys'.nodes[k'].chain;
    assert forall m | m in sys.log :: m in sys'.log;
    assert NodeOk(net, sys, k');
    forall h: nat | |net.genesis| <= h < |new'|
      ensures Accepted(net, sys.nodes.Keys, sys'.log, new', h)
    {
      if h < |old'| {
        assert Accepted(net, sys.nodes.Keys, sys.log, old', h);
        var r :| AcceptedAt(net, sys.nodes.Keys, sys.log, old', h, r);
        assert new'[..h] == old'[..h];
        PrecommitQuorumGrows(net.validators(old'[..h]), sys.nodes.Keys, sys.log, sys'.log, h, r, BlockHash(old'[h]));
        assert AcceptedAt(net, sys.nodes.Keys, sys'.log, new', h, r);
      } else {
        assert a.Commit? && k' == k && new' == old' + [a.block];
        var r := CommitHasQuorum(net, sys, k, a.block);
        assert new'[..h] == old';
        PrecommitQuorumGrows(net.validators(old'), sys.nodes.Keys, sys.log, sys'.log, h, r, BlockHash(a.block));
        assert AcceptedAt(net, sys.nodes.Keys, sys'.log, new', h, r);
      }
    }
  }

  lemma NodesKept(net: Net, sys: System, k: Key, a: Action, sys': System, k': Key)
    requires FewFaults(net, sys) && Inv(net, sys) && StepBy(net, sys, k, a, sys')
    ensures NodeOk(net, sys', k')
  {
    var correct, s := sys.nodes.Keys, sys.nodes[k];
    ChainsGrow(net, sys, k, a, sys', k);
    if k' in sys.nodes {
      CertifiedKept(net, sys, k, a, sys', k');
      assert NodeOk(net, sys, k');
      if k' != k {
        forall m | m in sys'.log && m !in sys.log
          ensures MessageSigner(m) != k'
        {
          assert NodeOk(net, sys, k);
          SentByActor(net, s, a, m);
        }
        OtherNodeKeeps(net, correct, sys.log, sys'.log, sys.nodes[k']);
      } else {
        ActorTolerable(net, sys, k);
        ActorKeeps(net, correct, sys.log, s, a);
      }
    }
  }

  /** The step lemma: one step of one node keeps the whole invariant. */
  lemma StepKeepsInv(net: Net, sys: System, k: Key, a: Action, sys': System)
    requires FewFaults(net, sys) && Inv(net, sys) && StepBy(net, sys, k, a, sys')
    ensures Inv(net, sys') && sys'.nodes.Keys == sys.nodes.Keys
  {
    ChainsGrow(net, sys, k, a, sys', k);
    forall k'
      ensures NodeOk(net, sys', k')
    {
      NodesKept(net, sys, k, a, sys', k');
    }
    LogKept(net, sys, k, a, sys');
    ChainsKept(net, sys, k, a, sys');
  }

  lemma InitialInv(net: Net, sys: System)
    requires Init(net, sys)
    ensures Inv(net, sys)
  {
  }

  /** The invariant holds in every state of every run. */
  lemma {:induction false} RunInv(net: Net, run: seq<System>, i: nat)
    requires IsRun(net, run) && i < |run| && AlwaysFewFaults(net, run)
    ensures Inv(net, run[i]) && run[i].nodes.Keys == run[0].nodes.Keys
  {
    if i == 0 {
      InitialInv(net, run[0]);
    } else {
      RunInv(net, run, i - 1);
      assert Next(net, run[i - 1], run[i - 1 + 1]);
      var k, a :| StepBy(net, run[i - 1], k, a, run[i]);
      StepKeepsInv(net, run[i - 1], k, a, run[i]);
    }
  }

  lemma {:induction false} RunChainsGrow(net: Net, run: seq<System>, i: nat, j: nat, k: Key)
    requires IsRun(net, run) && i <= j < |run| && k in run[0].nodes
    requires AlwaysFewFaults(net, run)
    ensures k in run[i].nodes && k in run[j].nodes && run[i].nodes[k].chain <= run[j].nodes[k].chain
    ensures run[i].log <= run[j].log
    decreases j - i
  {
    RunInv(net, run, i);
    if i == j {
    } else {
      RunChainsGrow(net, run, i + 1, j, k);
      assert Next(net, run[i], run[i + 1]);
      var k', a :| StepBy(net, run[i], k', a, run[i + 1]);
      ChainsGrow(net, run[i], k', a, run[i + 1], k);
    }
  }

  // ----- The theorems -----

  /** Agreement: in every interleaving, with fewer than a third of the validators faulty at
      every height, no two correct nodes, at any two moments, have different blocks at the
      same height; and a block once committed is never replaced. */
  lemma Agreement(net: Net, run: seq<System>, i: nat, j: nat, k1: Key, k2: Key, h: nat)
    requires IsRun(net, run) && AlwaysFewFaults(net, run)
    requires i <= j < |run| && k1 in run[0].nodes && k2 in run[0].nodes
    ensures k1 in run[i].nodes && k1 in run[j].nodes && k2 in run[j].nodes
    ensures run[i].nodes[k1].chain <= run[j].nodes[k1].chain
    ensures h < |run[i].nodes[k1].chain| && h < |run[j].nodes[k2].chain| ==>
              run[i].nodes[k1].chain[h] == run[j].nodes[k2].chain[h]
  {
    RunInv(net, run, j);
    RunChainsGrow(net, run, i, j, k1);
    assert Compatible(run[j].nodes[k1].chain, run[j].nodes[k2].chain);
  }

  /** A correct validator sends at most one prevote and at most one precommit for a height
      and round: two votes of the same kind in one slot are the same broadcast. */
  lemma OneVotePerRound(net: Net, run: seq<System>, t: nat, i: nat, j: nat)
    requires IsRun(net, run) && AlwaysFewFaults(net, run)
    requires t < |run| && i < |run[t].log| && j < |run[t].log|
    requires SameSlot(run[t].log[i], run[t].log[j]) && run[t].log[i].Prevote? == run[t].log[j].Prevote?
    ensures i == j
  {
    RunInv(net, run, t);
    assert SameSlot(run[t].log[j], run[t].log[i]);
  }

  /** One action never lowers the locked round within a height nor swaps the locked propose. */
  lemma LockGrows(net: Net, s: NodeState, a: Action)
    requires Enabled(net, s, a)
    ensures var s' := Apply(net, s, a).state;
            Height(s') == Height(s) ==>
              s.lockedRound <= s'.lockedRound
              && (s.lockedRound == s'.lockedRound ==> s.lockedPropose == s'.lockedPropose)
  {
  }

  /** Within a height the locked round only grows, a lock is never dropped, it never passes
      the current round, and it is backed by a prevote majority of that round. */
  lemma LocksAreBackedAndGrow(net: Net, run: seq<System>, i: nat, k: Key)
    requires IsRun(net, run) && AlwaysFewFaults(net, run)
    requires i + 1 < |run| && k in run[0].nodes
    ensures k in run[i].nodes && k in run[i + 1].nodes
    ensures var s, s' := run[i].nodes[k], run[i + 1].nodes[k];
            && s.lockedRound <= s.round && s'.lockedRound <= s'.round
            && (Height(s') == Height(s) ==>
                  s.lockedRound <= s'.lockedRound
                  && (s.lockedRound == s'.lockedRound ==> s.lockedPropose == s'.lockedPropose))
            && (s.lockedPropose.Some? ==>
                  PrevoteQuorum(Keys(net, s), run[0].nodes.Keys, run[i].log, Height(s), s.lockedRound,
                    s.lockedPropose.value))
  {
    RunInv(net, run, i);
    RunInv(net, run, i + 1);
    assert NodeOk(net, run[i], k) && NodeOk(net, run[i + 1], k);
    assert Next(net, run[i], run[i + 1]);
    var k', a :| StepBy(net, run[i], k', a, run[i + 1]);
    LockGrows(net, run[i].nodes[k'], a);
  }

  // ----- The heights of prevotes -----

  /** A prevote is for a propose of its height, unless the action takes up a stale one. */
  lemma PrevoteHeight(net: Net, correct: set<Key>, log: seq<Message>, s: NodeState, a: Action, m: Message)
    requires NodeInv(net, correct, log, s) && Enabled(net, s, a)
    requires m.Prevote? && m in Apply(net, s, a).sent
    ensures m.height == Height(s) && m.proposeHash.ProposeHash? && m.proposeHash.propose.height <= m.height
    ensures !Current(m.proposeHash, m.height) <==> a.PrevoteFullPropose? && Stale(s, a.hash)
  {
    hide VotesBacked, CertsBacked, OwnVotes, AddPrevote, AddPrecommit;
    if a.PrevoteFullPropose? {
      assert m.proposeHash == a.hash;
    }
  }

  lemma PrevoteHeightsStep(net: Net, sys: System, k: Key, a: Action, sys': System)
    requires StepBy(net, sys, k, a, sys') && NodeInv(net, sys.nodes.Keys, sys.log, sys.nodes[k])
    ensures forall m | m in sys'.log && m !in sys.log && m.Prevote? ::
              m.proposeHash.ProposeHash? && m.proposeHash.propose.height <= m.height
  {
    hide Apply, Enabled, NodeInv;
    forall m | m in Apply(net, sys.nodes[k], a).sent && m.Prevote?
      ensures m.proposeHash.ProposeHash? && m.proposeHash.propose.height <= m.height
    {
      PrevoteHeight(net, sys.nodes.Keys, sys.log, sys.nodes[k], a, m);
    }
  }

  /** In no run is there a prevote of a correct validator for a propose of a later height. */
  lemma {:induction false} PrevoteHeights(net: Net, run: seq<System>, i: nat)
    requires IsRun(net, run) && i < |run| && AlwaysFewFaults(net, run)
    ensures forall m | m in run[i].log && m.Prevote? ::
              m.proposeHash.ProposeHash? && m.proposeHash.propose.height <= m.height
  {
    hide NodeInv, AlwaysFewFaults, StepBy;
    if i == 0 {
    } else {
      PrevoteHeights(net, run, i - 1);
      RunInv(net, run, i - 1);
      assert Next(net, run[i - 1], run[i - 1 + 1]);
      var k, a :| StepBy(net, run[i - 1], k, a, run[i]);
      ActorOk(net, run[i - 1], k, a, run[i]);
      PrevoteHeightsStep(net, run[i - 1], k, a, run[i]);
    }
  }

  lemma ActorOk(net: Net, sys: System, k: Key, a: Action, sys': System)
    requires Inv(net, sys) && StepBy(net, sys, k, a, sys')
    ensures k in sys.nodes && NodeInv(net, sys.nodes.Keys, sys.log, sys.nodes[k])
  {
    hide NodeInv, Apply, Enabled;
    assert NodeOk(net, sys, k);
  }
}
