/**
 Many nodes at once.  A system is a set of correct nodes and the log of everything they have
 broadcast.  Any key without a node is Byzantine: messages it signs can be delivered at any
 time with any content, to any subset of nodes.  Messages of correct nodes can be delayed,
 lost, replayed and reordered, but not forged.
 */
module ConsensusSafety {
  import opened Wrappers
  import opened ConsensusModel

  datatype System = System(nodes: map<Key, NodeState>, log: seq<Message>)

  // ----- Assumption on the network: fewer than a third of the validators are faulty -----

  function Faulty(keys: seq<Key>, correct: set<Key>): set<nat> {
    set i: nat | i < |keys| && keys[i] !in correct
  }

  ghost predicate Tolerable(keys: seq<Key>, correct: set<Key>) {
    && 3 * |Faulty(keys, correct)| < |keys|
    && forall i, j | 0 <= i < j < |keys| :: keys[i] != keys[j]
  }

  /** The validators of every height that some correct node has reached are mostly correct. */
  ghost predicate FewFaults(net: Net, sys: System) {
    forall k, h | k in sys.nodes && 0 <= h <= |sys.nodes[k].chain| ::
      Tolerable(net.validators(sys.nodes[k].chain[..h]), sys.nodes.Keys)
  }

  /** The same in every state of a run. */
  ghost predicate AlwaysFewFaults(net: Net, run: seq<System>) {
    forall i | 0 <= i < |run| :: FewFaults(net, run[i])
  }

  lemma ActorTolerable(net: Net, sys: System, k: Key)
    requires FewFaults(net, sys) && k in sys.nodes
    ensures Tolerable(Keys(net, sys.nodes[k]), sys.nodes.Keys)
  {
    var chain := sys.nodes[k].chain;
    assert chain[..|chain|] == chain;
  }

  // ----- Runs -----

  ghost predicate Deliverable(correct: set<Key>, log: seq<Message>, a: Action) {
    match a
    case RecvPrevote(m) => MessageSigner(m) in correct ==> m in log
    case RecvPrecommit(m) => MessageSigner(m) in correct ==> m in log
    case LearnCertificate(ps, _) => forall i | 0 <= i < |ps| :: MessageSigner(ps[i]) in correct ==> ps[i] in log
    case _ => true
  }

  ghost predicate Init(net: Net, sys: System) {
    sys.log == [] && forall k | k in sys.nodes :: sys.nodes[k] == InitialNode(net, k)
  }

  ghost predicate StepBy(net: Net, sys: System, k: Key, a: Action, sys': System) {
    && k in sys.nodes
    && Enabled(net, sys.nodes[k], a)
    && Deliverable(sys.nodes.Keys, sys.log, a)
    && var e := Apply(net, sys.nodes[k], a);
       sys' == System(sys.nodes[k := e.state], sys.log + e.sent)
  }

  ghost predicate Next(net: Net, sys: System, sys': System) {
    exists k, a :: StepBy(net, sys, k, a, sys')
  }

  ghost predicate IsRun(net: Net, run: seq<System>) {
    && |run| > 0
    && Init(net, run[0])
    && forall i | 0 <= i < |run| - 1 :: Next(net, run[i], run[i + 1])
  }

  // ----- Quorums -----

  predicate IsPrevote(m: Message, k: Key, h: nat, r: nat, hash: Hash) {
    m.Prevote? && m.signer == k && m.height == h && m.round == r && m.proposeHash == hash
  }

  predicate IsPrecommit(m: Message, k: Key, h: nat, r: nat, blockHash: Hash) {
    m.Precommit? && m.signer == k && m.height == h && m.round == r && m.blockHash == blockHash
  }

  predicate Prevoted(log: seq<Message>, k: Key, h: nat, r: nat, hash: Hash) {
    exists m | m in log :: IsPrevote(m, k, h, r, hash)
  }

  predicate Precommitted(log: seq<Message>, k: Key, h: nat, r: nat, blockHash: Hash) {
    exists m | m in log :: IsPrecommit(m, k, h, r, blockHash)
  }

  /** `q` is a majority of the validators. */
  predicate IsQuorum(keys: seq<Key>, q: set<nat>) {
    |q| >= MajorityCount(|keys|) && forall i | i in q :: i < |keys|
  }

  ghost predicate PrevotedBy(keys: seq<Key>, correct: set<Key>, log: seq<Message>, h: nat, r: nat, hash: Hash,
      q: set<nat>) {
    IsQuorum(keys, q) && forall i | i in q :: keys[i] in correct ==> Prevoted(log, keys[i], h, r, hash)
  }

  ghost predicate PrevoteQuorum(keys: seq<Key>, correct: set<Key>, log: seq<Message>, h: nat, r: nat, hash: Hash) {
    exists q: set<nat> :: PrevotedBy(keys, correct, log, h, r, hash, q)
  }

  ghost predicate PrecommittedBy(keys: seq<Key>, correct: set<Key>, log: seq<Message>, h: nat, r: nat,
      blockHash: Hash, q: set<nat>) {
    IsQuorum(keys, q) && forall i | i in q :: keys[i] in correct ==> Precommitted(log, keys[i], h, r, blockHash)
  }

  ghost predicate PrecommitQuorum(keys: seq<Key>, correct: set<Key>, log: seq<Message>, h: nat, r: nat,
      blockHash: Hash) {
    exists q: set<nat> :: PrecommittedBy(keys, correct, log, h, r, blockHash, q)
  }

  lemma {:induction false} BoundedCardinality(n: nat, s: set<nat>)
    requires forall i | i in s :: i < n
    ensures |s| <= n
  {
    if n == 0 {
      assert s == {};
    } else {
      BoundedCardinality(n - 1, s - {n - 1});
    }
  }

  function Correct(keys: seq<Key>, correct: set<Key>): set<nat> {
    set i: nat | i < |keys| && keys[i] in correct
  }

  ghost function Below(n: nat): (r: set<nat>)
    ensures |r| == n && forall i: nat :: i in r <==> i < n
  {
    if n == 0 then {} else Below(n - 1) + {n - 1}
  }

  /** The correct validators alone are a majority exactly when fewer than a third are faulty. */
  lemma CorrectAreMajority(keys: seq<Key>, correct: set<Key>)
    ensures |Correct(keys, correct)| >= MajorityCount(|keys|) <==> 3 * |Faulty(keys, correct)| < |keys|
  {
    assert Correct(keys, correct) + Faulty(keys, correct) == Below(|keys|);
    assert Correct(keys, correct) !! Faulty(keys, correct);
  }

  /** Any two majorities have a correct validator in common. */
  lemma QuorumsMeet(keys: seq<Key>, correct: set<Key>, q1: set<nat>, q2: set<nat>) returns (i: nat)
    requires Tolerable(keys, correct) && IsQuorum(keys, q1) && IsQuorum(keys, q2)
    ensures i in q1 && i in q2 && keys[i] in correct
  {
    var faulty := Faulty(keys, correct);
    BoundedCardinality(|keys|, q1 + q2);
    assert |q1 + q2| + |q1 * q2| == |q1| + |q2|;
    assert q1 * q2 == (q1 * q2 - faulty) + (q1 * q2 * faulty);
    BoundedSubset(q1 * q2 * faulty, faulty);
    assert q1 * q2 - faulty != {};
    i :| i in q1 * q2 - faulty;
  }

  lemma {:induction false} BoundedSubset(a: set<nat>, b: set<nat>)
    requires a <= b
    ensures |a| <= |b|
  {
    assert b == a + (b - a);
  }

  lemma PrevoteQuorumGrows(keys: seq<Key>, correct: set<Key>, log: seq<Message>, log': seq<Message>, h: nat, r: nat,
      hash: Hash)
    requires PrevoteQuorum(keys, correct, log, h, r, hash)
    requires forall m | m in log :: m in log'
    ensures PrevoteQuorum(keys, correct, log', h, r, hash)
  {
    var q :| PrevotedBy(keys, correct, log, h, r, hash, q);
    assert PrevotedBy(keys, correct, log', h, r, hash, q);
  }

  lemma PrecommitQuorumGrows(keys: seq<Key>, correct: set<Key>, log: seq<Message>, log': seq<Message>, h: nat,
      r: nat, blockHash: Hash)
    requires PrecommitQuorum(keys, correct, log, h, r, blockHash)
    requires forall m | m in log :: m in log'
    ensures PrecommitQuorum(keys, correct, log', h, r, blockHash)
  {
    var q :| PrecommittedBy(keys, correct, log, h, r, blockHash, q);
    assert PrecommittedBy(keys, correct, log', h, r, blockHash, q);
  }

  // ----- The invariant of one node against the log -----

  ghost predicate PrevotesBacked(keys: seq<Key>, correct: set<Key>, log: seq<Message>, h: nat, votes: Votes) {
    forall r, hash, i {:trigger i in Voters(votes, r, hash)} | i in Voters(votes, r, hash) ::
      i < |keys| && (keys[i] in correct ==> Prevoted(log, keys[i], h, r, hash))
  }

  ghost predicate PrecommitsBacked(keys: seq<Key>, correct: set<Key>, log: seq<Message>, h: nat, votes: Votes) {
    forall r, hash, i {:trigger i in Voters(votes, r, hash)} | i in Voters(votes, r, hash) ::
      i < |keys| && (keys[i] in correct ==> Precommitted(log, keys[i], h, r, hash))
  }

  ghost predicate VotesBacked(net: Net, correct: set<Key>, log: seq<Message>, s: NodeState) {
    && PrevotesBacked(Keys(net, s), correct, log, Height(s), s.prevotes)
    && PrecommitsBacked(Keys(net, s), correct, log, Height(s), s.precommits)
  }

  ghost predicate CertBacked(net: Net, correct: set<Key>, log: seq<Message>, chain: seq<Block>, c: (nat, nat, Hash)) {
    c.0 <= |chain| && PrecommitQuorum(net.validators(chain[..c.0]), correct, log, c.0, c.1, c.2)
  }

  ghost predicate CertsBacked(net: Net, correct: set<Key>, log: seq<Message>, s: NodeState) {
    forall c | c in s.certs :: CertBacked(net, correct, log, s.chain, c)
  }

  ghost predicate OwnMessage(s: NodeState, m: Message) {
    && MessageHeight(m) <= Height(s)
    && (MessageHeight(m) == Height(s) && m.Prevote? ==> m.round in s.ourPrevotes && s.ourPrevotes[m.round] == m)
    && (MessageHeight(m) == Height(s) && m.Precommit? ==>
          1 <= m.round <= s.lockedRound && (m.round == s.lockedRound ==> Some(m.proposeHash) == s.lockedPropose))
  }

  ghost predicate RecordedPrevote(log: seq<Message>, s: NodeState, r: nat, m: Message) {
    && m in log && m.Prevote? && m.round == r && m.height == Height(s) && m.signer == s.key
    && (Current(m.proposeHash, Height(s)) ==> r <= s.round)
  }

  ghost predicate OwnVotes(log: seq<Message>, s: NodeState) {
    && (forall m | m in log :: MessageSigner(m) == s.key ==> OwnMessage(s, m))
    && (forall r | r in s.ourPrevotes :: RecordedPrevote(log, s, r, s.ourPrevotes[r]))
  }

  ghost predicate LockBacked(net: Net, correct: set<Key>, log: seq<Message>, s: NodeState) {
    && (s.lockedPropose.None? <==> s.lockedRound == 0)
    && s.lockedRound <= s.round
    && (forall hash | hash in s.proposes :: Current(hash, Height(s)) && hash.propose.round <= s.round)
    && (s.lockedPropose.Some? ==>
          && s.lockedPropose.value in s.proposes
          && PrevoteQuorum(Keys(net, s), correct, log, Height(s), s.lockedRound, s.lockedPropose.value))
  }

  ghost predicate NodeInv(net: Net, correct: set<Key>, log: seq<Message>, s: NodeState) {
    && s.key in correct
    && VotesBacked(net, correct, log, s)
    && CertsBacked(net, correct, log, s)
    && OwnVotes(log, s)
    && LockBacked(net, correct, log, s)
  }

  // ----- The invariant of the log -----

  ghost predicate NoDoubleVotes(log: seq<Message>) {
    forall i, j {:trigger SameSlot(log[i], log[j])} | 0 <= i < j < |log| && SameSlot(log[i], log[j]) ::
      log[i].Prevote? != log[j].Prevote?
  }

  /** Votes (prevotes or precommits) of one signer for one height and round. */
  predicate SameSlot(a: Message, b: Message) {
    && !a.ProposeMsg? && !b.ProposeMsg?
    && MessageSigner(a) == MessageSigner(b) && MessageHeight(a) == MessageHeight(b)
    && MessageRound(a) == MessageRound(b)
  }

  ghost predicate PrecommitJustified(net: Net, correct: set<Key>, log: seq<Message>, chain: seq<Block>, m: Message) {
    m.Precommit? ==>
      && m.height <= |chain|
      && Current(m.proposeHash, m.height)
      && m.blockHash
      == BlockHash(MakeBlock(net, chain[..m.height], m.proposeHash.propose.validator, m.proposeHash.propose.txs))
      && PrevoteQuorum(net.validators(chain[..m.height]), correct, log, m.height, m.round, m.proposeHash)
  }

  /** A prevote that departs from an own precommit of an earlier round needs a newer quorum,
      and that quorum was complete before the prevote was sent. */
  ghost predicate PrevoteJustified(net: Net, correct: set<Key>, log: seq<Message>, chain: seq<Block>, j: nat,
      c: Message)
    requires j < |log|
  {
    var v := log[j];
    v.Prevote? && c.Precommit? && c.signer == v.signer && c.height == v.height && c.round < v.round
    && Current(v.proposeHash, v.height) && v.proposeHash != c.proposeHash ==>
      && v.height <= |chain|
      && exists r ::
           && c.round < r <= v.round
           && PrevoteQuorum(net.validators(chain[..v.height]), correct, log[..j], v.height, r, v.proposeHash)
  }

  ghost predicate MessageOk(net: Net, sys: System, m: Message) {
    m in sys.log ==>
      && MessageSigner(m) in sys.nodes && !m.ProposeMsg?
      && PrecommitJustified(net, sys.nodes.Keys, sys.log, sys.nodes[MessageSigner(m)].chain, m)
  }

  ghost predicate PrevoteOk(net: Net, sys: System, j: nat, c: Message) {
    j < |sys.log| && c in sys.log && MessageSigner(sys.log[j]) in sys.nodes ==>
      PrevoteJustified(net, sys.nodes.Keys, sys.log, sys.nodes[MessageSigner(sys.log[j])].chain, j, c)
  }

  ghost predicate LogInv(net: Net, sys: System) {
    && NoDoubleVotes(sys.log)
    && (forall m {:trigger MessageOk(net, sys, m)} :: MessageOk(net, sys, m))
    && (forall j, c {:trigger PrevoteOk(net, sys, j, c)} :: PrevoteOk(net, sys, j, c))
  }

  // ----- The invariant of the chains -----

  predicate Compatible(a: seq<Block>, b: seq<Block>) {
    a <= b || b <= a
  }

  ghost predicate ChainsInv(sys: System) {
    forall k1, k2 {:trigger Compatible(sys.nodes[k1].chain, sys.nodes[k2].chain)}
      | k1 in sys.nodes && k2 in sys.nodes ::
      Compatible(sys.nodes[k1].chain, sys.nodes[k2].chain)
  }

  ghost predicate AcceptedAt(net: Net, correct: set<Key>, log: seq<Message>, chain: seq<Block>, h: nat, r: nat)
    requires h < |chain|
  {
    PrecommitQuorum(net.validators(chain[..h]), correct, log, h, r, BlockHash(chain[h]))
  }

  ghost predicate Accepted(net: Net, correct: set<Key>, log: seq<Message>, chain: seq<Block>, h: nat)
    requires h < |chain|
  {
    exists r :: AcceptedAt(net, correct, log, chain, h, r)
  }

  /** Every block after the first ones was accepted by a majority of precommits of one round. */
  ghost predicate Certified(net: Net, correct: set<Key>, log: seq<Message>, chain: seq<Block>) {
    && net.genesis <= chain
    && forall h: nat | |net.genesis| <= h < |chain| ::
         Accepted(net, correct, log, chain, h)
  }

  ghost predicate NodeOk(net: Net, sys: System, k: Key) {
    k in sys.nodes ==>
      && sys.nodes[k].key == k && NodeInv(net, sys.nodes.Keys, sys.log, sys.nodes[k])
      && Certified(net, sys.nodes.Keys, sys.log, sys.nodes[k].chain)
  }

  ghost predicate Inv(net: Net, sys: System) {
    && (forall k {:trigger NodeOk(net, sys, k)} :: NodeOk(net, sys, k))
    && LogInv(net, sys)
    && ChainsInv(sys)
  }

  // ----- Agreement at one height -----

  /** Every correct node that has reached the height has the same chain below it. */
  ghost predicate CommonPrefix(sys: System, chain: seq<Block>) {
    forall k | k in sys.nodes && |chain| <= |sys.nodes[k].chain| :: chain <= sys.nodes[k].chain
  }

  lemma PrevoteQuorumUnique(net: Net, sys: System, keys: seq<Key>, h: nat, r: nat, p1: Hash, p2: Hash)
    requires NoDoubleVotes(sys.log) && Tolerable(keys, sys.nodes.Keys)
    requires PrevoteQuorum(keys, sys.nodes.Keys, sys.log, h, r, p1)
    requires PrevoteQuorum(keys, sys.nodes.Keys, sys.log, h, r, p2)
    ensures p1 == p2
  {
    var correct := sys.nodes.Keys;
    var q1 :| PrevotedBy(keys, correct, sys.log, h, r, p1, q1);
    var q2 :| PrevotedBy(keys, correct, sys.log, h, r, p2, q2);
    var i := QuorumsMeet(keys, correct, q1, q2);
    assert Prevoted(sys.log, keys[i], h, r, p1) && Prevoted(sys.log, keys[i], h, r, p2);
    var a :| 0 <= a < |sys.log| && IsPrevote(sys.log[a], keys[i], h, r, p1);
    var b :| 0 <= b < |sys.log| && IsPrevote(sys.log[b], keys[i], h, r, p2);
    assert SameSlot(sys.log[a], sys.log[b]) && SameSlot(sys.log[b], sys.log[a]);
  }

  /** A correct validator's precommit for the propose `p` at the given slot. */
  predicate PrecommittedPropose(log: seq<Message>, k: Key, h: nat, r: nat, p: Hash) {
    exists m | m in log :: m.Precommit? && m.signer == k && m.height == h && m.round == r && m.proposeHash == p
  }

  ghost predicate LockedIn(keys: seq<Key>, correct: set<Key>, log: seq<Message>, h: nat, r: nat, p: Hash, q: set<nat>) {
    IsQuorum(keys, q) && forall i | i in q :: keys[i] in correct ==> PrecommittedPropose(log, keys[i], h, r, p)
  }

  lemma SentAtCommonHeight(net: Net, sys: System, chain: seq<Block>, m: Message)
    requires Inv(net, sys) && CommonPrefix(sys, chain)
    requires m in sys.log && MessageHeight(m) == |chain|
    ensures MessageSigner(m) in sys.nodes && sys.nodes[MessageSigner(m)].key == MessageSigner(m)
    ensures |chain| <= |sys.nodes[MessageSigner(m)].chain| && sys.nodes[MessageSigner(m)].chain[..|chain|] == chain
  {
    assert MessageOk(net, sys, m);
    assert NodeOk(net, sys, MessageSigner(m));
    assert OwnMessage(sys.nodes[MessageSigner(m)], m);
  }

  /** The heart of agreement: once a majority has precommitted `p` in round `r`, no prefix of
      the log holds a prevote majority of a later round for another propose of this height. */
  lemma {:induction false} LaterQuorumsAgree(net: Net, sys: System, chain: seq<Block>, r: nat, p: Hash, q: set<nat>,
      j: nat, r': nat, p': Hash)
    requires Inv(net, sys) && CommonPrefix(sys, chain)
    requires Tolerable(net.validators(chain), sys.nodes.Keys)
    requires LockedIn(net.validators(chain), sys.nodes.Keys, sys.log, |chain|, r, p, q)
    requires j <= |sys.log| && r < r' && Current(p', |chain|)
    requires PrevoteQuorum(net.validators(chain), sys.nodes.Keys, sys.log[..j], |chain|, r', p')
    ensures p' == p
    decreases j
  {
    var keys, correct, h := net.validators(chain), sys.nodes.Keys, |chain|;
    var q' :| PrevotedBy(keys, correct, sys.log[..j], h, r', p', q');
    var i := QuorumsMeet(keys, correct, q, q');
    var k := keys[i];
    assert Prevoted(sys.log[..j], k, h, r', p');
    var jj :| 0 <= jj < j && IsPrevote(sys.log[jj], k, h, r', p');
    assert PrecommittedPropose(sys.log, k, h, r, p);
    var c :| c in sys.log && c.Precommit? && c.signer == k && c.height == h && c.round == r && c.proposeHash == p;
    if p' == p {
    } else {
      SentAtCommonHeight(net, sys, chain, sys.log[jj]);
      assert PrevoteOk(net, sys, jj, c);
      var r'' :| r < r'' <= r' && PrevoteQuorum(keys, correct, sys.log[..jj], h, r'', p');
      LaterQuorumsAgree(net, sys, chain, r, p, q, jj, r'', p');
    }
  }

  /** A precommit majority pins down one propose, backed by a prevote majority of its round. */
  lemma PrecommitQuorumPropose(net: Net, sys: System, chain: seq<Block>, r: nat, b: Hash) returns (p: Hash, q: set<nat>)
    requires Inv(net, sys) && CommonPrefix(sys, chain)
    requires Tolerable(net.validators(chain), sys.nodes.Keys)
    requires PrecommitQuorum(net.validators(chain), sys.nodes.Keys, sys.log, |chain|, r, b)
    ensures Current(p, |chain|) && b == BlockHash(MakeBlock(net, chain, p.propose.validator, p.propose.txs))
    ensures PrevoteQuorum(net.validators(chain), sys.nodes.Keys, sys.log, |chain|, r, p)
    ensures LockedIn(net.validators(chain), sys.nodes.Keys, sys.log, |chain|, r, p, q)
  {
    var keys, correct, h := net.validators(chain), sys.nodes.Keys, |chain|;
    q :| PrecommittedBy(keys, correct, sys.log, h, r, b, q);
    var i := QuorumsMeet(keys, correct, q, q);
    assert Precommitted(sys.log, keys[i], h, r, b);
    var m :| m in sys.log && IsPrecommit(m, keys[i], h, r, b);
    PrecommitAt(net, sys, chain, m);
    p := m.proposeHash;
    assert chain[..m.height] == chain;
    forall i' | i' in q && keys[i'] in correct
      ensures PrecommittedPropose(sys.log, keys[i'], h, r, p)
    {
      assert Precommitted(sys.log, keys[i'], h, r, b);
      var m' :| m' in sys.log && IsPrecommit(m', keys[i'], h, r, b);
      PrecommitAt(net, sys, chain, m');
      PrevoteQuorumUnique(net, sys, keys, h, r, p, m'.proposeHash);
    }
  }

  lemma PrecommitAt(net: Net, sys: System, chain: seq<Block>, m: Message)
    requires Inv(net, sys) && CommonPrefix(sys, chain)
    requires m in sys.log && m.Precommit? && m.height == |chain|
    ensures PrecommitJustified(net, sys.nodes.Keys, sys.log, chain, m)
  {
    SentAtCommonHeight(net, sys, chain, m);
    assert MessageOk(net, sys, m);
    assert chain[..m.height] == chain;
  }

  /** Two precommit majorities of one height, of any rounds, are for the same block. */
  lemma OneBlockPerHeight(net: Net, sys: System, chain: seq<Block>, r1: nat, b1: Hash, r2: nat, b2: Hash)
    requires Inv(net, sys) && CommonPrefix(sys, chain)
    requires Tolerable(net.validators(chain), sys.nodes.Keys)
    requires PrecommitQuorum(net.validators(chain), sys.nodes.Keys, sys.log, |chain|, r1, b1)
    requires PrecommitQuorum(net.validators(chain), sys.nodes.Keys, sys.log, |chain|, r2, b2)
    ensures b1 == b2
  {
    var p1, q1 := PrecommitQuorumPropose(net, sys, chain, r1, b1);
    var p2, q2 := PrecommitQuorumPropose(net, sys, chain, r2, b2);
    assert sys.log[..|sys.log|] == sys.log;
    if r1 < r2 {
      LaterQuorumsAgree(net, sys, chain, r1, p1, q1, |sys.log|, r2, p2);
    } else if r2 < r1 {
      LaterQuorumsAgree(net, sys, chain, r2, p2, q2, |sys.log|, r1, p1);
    } else {
      PrevoteQuorumUnique(net, sys, net.validators(chain), |chain|, r1, p1, p2);
    }
  }
}
