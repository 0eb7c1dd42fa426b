/**
 One node of the Byzantine fault tolerant consensus: the values it exchanges, the part of
 its state that decides safety, and the atomic steps its message and timeout handlers are
 made of.  `NodeHandler` (NodeHandler.dfy) is the imperative handler and is proved to make
 these steps only; `ConsensusSafety` (ConsensusSafety.dfy) runs many such nodes together.

 Hashes are symbolic: a hash is the value it was computed from, so equal hashes have equal
 preimages.  A signature is the key that made it.
 */
module ConsensusModel {

  import opened Division
  import opened Wrappers

  type Key = int
  type TxId = int

  datatype Hash =
    | ProposeHash(propose: Propose)
    | BlockHash(block: Block)
    | OtherHash(id: int)

  datatype Propose = Propose(validator: nat, height: nat, round: nat, prevHash: Hash, txs: seq<TxId>, signer: Key)

  datatype Block = Block(proposer: nat, height: nat, txs: seq<TxId>, prevHash: Hash, stateHash: int)

  datatype Message =
    | ProposeMsg(propose: Propose)
    | Prevote(validator: nat, height: nat, round: nat, proposeHash: Hash, lockedRound: nat, signer: Key)
    | Precommit(validator: nat, height: nat, round: nat, proposeHash: Hash, blockHash: Hash, time: int, signer: Key)

  function MessageValidator(m: Message): nat {
    match m
    case ProposeMsg(p) => p.validator
    case Prevote(v, _, _, _, _, _) => v
    case Precommit(v, _, _, _, _, _, _) => v
  }

  function MessageHeight(m: Message): nat {
    match m
    case ProposeMsg(p) => p.height
    case Prevote(_, h, _, _, _, _) => h
    case Precommit(_, h, _, _, _, _, _) => h
  }

  function MessageRound(m: Message): nat {
    match m
    case ProposeMsg(p) => p.round
    case Prevote(_, _, r, _, _, _) => r
    case Precommit(_, _, r, _, _, _, _) => r
  }

  function MessageSigner(m: Message): Key {
    match m
    case ProposeMsg(p) => p.signer
    case Prevote(_, _, _, _, _, k) => k
    case Precommit(_, _, _, _, _, _, k) => k
  }

  /** What all nodes share: the chain they start from, the validator keys in force after a
      chain, and the deterministic execution of transactions on top of a chain. */
  datatype Net = Net(genesis: seq<Block>, validators: seq<Block> -> seq<Key>, exec: (seq<Block>, seq<TxId>) -> int)

  function LastHash(chain: seq<Block>): Hash {
    if chain == [] then OtherHash(0) else BlockHash(chain[|chain| - 1])
  }

  /** The block a node builds on top of `chain`. */
  function MakeBlock(net: Net, chain: seq<Block>, proposer: nat, txs: seq<TxId>): Block {
    Block(proposer, |chain|, txs, LastHash(chain), net.exec(chain, txs))
  }

  function MajorityCount(total: nat): nat {
    total * 2 / 3 + 1
  }

  predicate Committed(chain: seq<Block>, tx: TxId) {
    exists b | b in chain :: tx in b.txs
  }

  /** The validator whose propose is accepted in a round. */
  function Leader(net: Net, chain: seq<Block>, r: nat): nat
    requires |net.validators(chain)| > 0
  {
    (|chain| + r) % |net.validators(chain)|
  }

  /** In as many consecutive rounds as there are validators, each of them leads exactly once. */
  lemma LeadsOnce(net: Net, chain: seq<Block>, start: nat, v: nat) returns (r: nat)
    requires v < |net.validators(chain)|
    ensures start <= r < start + |net.validators(chain)| && Leader(net, chain, r) == v
    ensures forall q | start <= q < start + |net.validators(chain)| && Leader(net, chain, q) == v :: q == r
  {
    hide Leader;
    var n := |net.validators(chain)|;
    LeaderMoves(net, chain, start, 0);
    var a := Leader(net, chain, start);
    r := start + if v >= a then v - a else v + n - a;
    LeaderMoves(net, chain, start, r - start);
    forall q | start <= q < start + n && Leader(net, chain, q) == v ensures q == r {
      LeaderMoves(net, chain, start, q - start);
    }
  }

  lemma LeaderMoves(net: Net, chain: seq<Block>, start: nat, d: nat)
    requires d < |net.validators(chain)|
    ensures var a, n := Leader(net, chain, start), |net.validators(chain)|;
            a < n && Leader(net, chain, start + d) == if a + d < n then a + d else a + d - n
  {
    RemainderMoves(|chain| + start, |net.validators(chain)|, d);
    assert |chain| + start + d == |chain| + (start + d);
  }

  /** One block more moves the leader like one round more. */
  lemma LeaderAtNextHeight(net: Net, chain: seq<Block>, b: Block, r: nat)
    requires 0 < |net.validators(chain)| == |net.validators(chain + [b])|
    ensures Leader(net, chain + [b], r) == Leader(net, chain, r + 1)
  {
    assert |chain + [b]| + r == |chain| + (r + 1);
  }

  lemma RemainderMoves(x: nat, n: nat, d: nat)
    requires d < n
    ensures (x + d) % n == if x % n + d < n then x % n + d else x % n + d - n
  {
    var q, a := x / n, x % n;
    assert x == q * n + a;
    if a + d < n {
      Quotient(x + d, n, q, a + d);
    } else {
      assert (q + 1) * n == q * n + n;
      Quotient(x + d, n, q + 1, a + d - n);
    }
  }

  /** A propose of the leader on top of the last block, without committed transactions. */
  predicate Acceptable(net: Net, chain: seq<Block>, p: Propose)
    requires |net.validators(chain)| > 0
  {
    && p.prevHash == LastHash(chain) && p.validator == Leader(net, chain, p.round)
    && !exists tx | tx in p.txs :: Committed(chain, tx)
  }

  type Votes = map<(nat, Hash), set<nat>>

  function Voters(votes: Votes, round: nat, hash: Hash): set<nat> {
    if (round, hash) in votes then votes[(round, hash)] else {}
  }

  function AddVote(votes: Votes, round: nat, hash: Hash, voter: nat): (r: Votes)
    ensures forall r1, h1 :: Voters(r, r1, h1) ==
                             if r1 == round && h1 == hash then Voters(votes, round, hash) + {voter}
                             else Voters(votes, r1, h1)
  {
    votes[(round, hash) := Voters(votes, round, hash) + {voter}]
  }

  /** The safety relevant state of one node.  `certs` remembers every (height, round, block
      hash) for which the node has seen a majority of precommits. */
  datatype NodeState = NodeState(
    key: Key,
    chain: seq<Block>,
    round: nat,
    lockedRound: nat,
    lockedPropose: Option<Hash>,
    proposes: set<Hash>,
    prevotes: Votes,
    precommits: Votes,
    ourPrevotes: map<nat, Message>,
    ourPrecommits: map<nat, Message>,
    certs: set<(nat, nat, Hash)>,
    halted: bool)

  function InitialNode(net: Net, key: Key): NodeState {
    NodeState(key, net.genesis, 0, 0, None, {}, map[], map[], map[], map[], {}, false)
  }

  function Height(s: NodeState): nat {
    |s.chain|
  }

  function Keys(net: Net, s: NodeState): seq<Key> {
    net.validators(s.chain)
  }

  /** The position of `key` in the validator list, if any. */
  function FindValidator(keys: seq<Key>, key: Key): (r: Option<nat>)
    ensures r.Some? ==> r.value < |keys| && keys[r.value] == key
    ensures r.None? ==> key !in keys
  {
    if keys == [] then None
    else if keys[|keys| - 1] == key && key !in keys[..|keys| - 1] then Some(|keys| - 1)
    else FindValidator(keys[..|keys| - 1], key)
  }

  function ValidatorId(net: Net, s: NodeState): Option<nat> {
    FindValidator(Keys(net, s), s.key)
  }

  function HasMajority(net: Net, s: NodeState, voters: set<nat>): bool {
    |voters| >= MajorityCount(|Keys(net, s)|)
  }

  /** The message comes from the validator it names, at the node's height. */
  predicate Authentic(net: Net, s: NodeState, m: Message) {
    && MessageHeight(m) == Height(s)
    && MessageValidator(m) < |Keys(net, s)|
    && MessageSigner(m) == Keys(net, s)[MessageValidator(m)]
  }

  /** A propose of the height at hand; only such a propose can be locked. */
  predicate Current(hash: Hash, h: nat) {
    hash.ProposeHash? && hash.propose.height == h
  }

  /** A propose hash of another height: such a propose is never known at this height. */
  predicate Stale(s: NodeState, hash: Hash) {
    hash.ProposeHash? && hash.propose.height < Height(s)
  }

  function AddPrevote(net: Net, s: NodeState, m: Message): NodeState
    requires m.Prevote?
  {
    var own := ValidatorId(net, s) == Some(m.validator);
    if own && m.round in s.ourPrevotes && s.ourPrevotes[m.round] != m then s.(halted := true)
    else
      s.(ourPrevotes := if own then s.ourPrevotes[m.round := m] else s.ourPrevotes,
         prevotes := AddVote(s.prevotes, m.round, m.proposeHash, m.validator))
  }

  function AddPrecommit(net: Net, s: NodeState, m: Message): NodeState
    requires m.Precommit?
  {
    var own := ValidatorId(net, s) == Some(m.validator);
    if own && m.round in s.ourPrecommits && s.ourPrecommits[m.round].Precommit?
       && s.ourPrecommits[m.round].proposeHash != m.proposeHash then s.(halted := true)
    else
      var votes := AddVote(s.precommits, m.round, m.blockHash, m.validator);
      s.(ourPrecommits := if own then s.ourPrecommits[m.round := m] else s.ourPrecommits,
         precommits := votes,
         certs := if HasMajority(net, s, Voters(votes, m.round, m.blockHash))
         then s.certs + {(Height(s), m.round, m.blockHash)} else s.certs)
  }

  /** An own prevote for another propose in a round after the lock, up to the current one. */
  predicate HaveIncompatiblePrevotes(s: NodeState) {
    exists r | s.lockedRound < r <= s.round ::
      r in s.ourPrevotes && s.ourPrevotes[r].Prevote? && Some(s.ourPrevotes[r].proposeHash) != s.lockedPropose
  }

  function NewHeight(s: NodeState, b: Block): NodeState {
    s.(chain := s.chain + [b], round := 1, lockedRound := 0, lockedPropose := None, proposes := {},
       prevotes := map[], precommits := map[], ourPrevotes := map[], ourPrecommits := map[])
  }

  function OwnPrevote(s: NodeState, id: nat, round: nat, hash: Hash): Message {
    Prevote(id, Height(s), round, hash, s.lockedRound, s.key)
  }

  /** A list of precommits that proves that a block was accepted (`verify_precommits`). */
  predicate ValidCertificate(net: Net, s: NodeState, ps: seq<Message>, blockHash: Hash) {
    && MajorityCount(|Keys(net, s)|) <= |ps| <= |Keys(net, s)|
    && (forall i | 0 <= i < |ps| ::
          && ps[i].Precommit? && Authentic(net, s, ps[i])
          && ps[i].blockHash == blockHash && MessageRound(ps[i]) == MessageRound(ps[0]))
    && (forall i, j | 0 <= i < j < |ps| :: MessageValidator(ps[i]) != MessageValidator(ps[j]))
  }

  datatype Action =
    | LearnPropose(propose: Propose)
    | RecvPrevote(msg: Message)
    | RecvPrecommit(msg: Message)
    | PrevoteFullPropose(hash: Hash, round: nat)
    | PrevoteInLock(hash: Hash, round: nat, quorumRound: nat)
    | LockOn(hash: Hash, round: nat, time: int)
    | EnterRound(round: nat)
    | LearnCertificate(precommits: seq<Message>, blockHash: Hash)
    | Commit(block: Block)
    | Halt

  datatype Effect = Effect(state: NodeState, sent: seq<Message>)

  function SendPrevote(net: Net, s: NodeState, round: nat, hash: Hash): Effect {
    match ValidatorId(net, s)
    case None => Effect(s, [])
    case Some(id) =>
      var m := OwnPrevote(s, id, round, hash);
      var s' := AddPrevote(net, s, m);
      Effect(s', if s'.halted then [] else [m])
  }

  function SendPrecommit(net: Net, s: NodeState, round: nat, hash: Hash, time: int): Effect
    requires hash.ProposeHash?
  {
    match ValidatorId(net, s)
    case None => Effect(s, [])
    case Some(id) =>
      if HaveIncompatiblePrevotes(s) then Effect(s, [])
      else
        var b := MakeBlock(net, s.chain, hash.propose.validator, hash.propose.txs);
        var m := Precommit(id, Height(s), round, hash, BlockHash(b), time, s.key);
        var s' := AddPrecommit(net, s, m);
        Effect(s', if s'.halted then [] else [m])
  }

  /** When the node may take an action, as the handlers check it. */
  predicate Enabled(net: Net, s: NodeState, a: Action) {
    && !s.halted
    && match a
       case LearnPropose(p) => p.height == Height(s) && p.round <= s.round
       case RecvPrevote(m) => m.Prevote? && Authentic(net, s, m)
       case RecvPrecommit(m) => m.Precommit? && Authentic(net, s, m)
       case PrevoteFullPropose(hash, round) =>
         && ValidatorId(net, s).Some?
         && s.lockedRound == 0 && round !in s.ourPrevotes
         && (Stale(s, hash) || (hash in s.proposes && hash.ProposeHash? && hash.propose.round == round))
       case PrevoteInLock(hash, round, quorumRound) =>
         && ValidatorId(net, s).Some?
         && round !in s.ourPrevotes && round <= s.round && hash in s.proposes
         && (|| (s.lockedPropose == Some(hash) && s.lockedRound < round)
             || (s.lockedRound < quorumRound <= round && HasMajority(net, s, Voters(s.prevotes, quorumRound, hash))))
       case LockOn(hash, round, time) =>
         && s.lockedRound < round <= s.round && hash in s.proposes && hash.ProposeHash?
         && HasMajority(net, s, Voters(s.prevotes, round, hash))
       case EnterRound(r) => s.round < r
       case LearnCertificate(ps, blockHash) => ValidCertificate(net, s, ps, blockHash)
       case Commit(b) =>
         && b == MakeBlock(net, s.chain, b.proposer, b.txs)
         && exists c | c in s.certs :: c.2 == BlockHash(b)
       case Halt => true
  }

  /** What the action does to the node and which messages it broadcasts. */
  function Apply(net: Net, s: NodeState, a: Action): Effect
    requires Enabled(net, s, a)
  {
    match a
    case LearnPropose(p) => Effect(s.(proposes := s.proposes + {ProposeHash(p)}), [])
    case RecvPrevote(m) => Effect(AddPrevote(net, s, m), [])
    case RecvPrecommit(m) => Effect(AddPrecommit(net, s, m), [])
    case PrevoteFullPropose(hash, round) => SendPrevote(net, s, round, hash)
    case PrevoteInLock(hash, round, _) => SendPrevote(net, s, round, hash)
    case LockOn(hash, round, time) =>
      SendPrecommit(net, s.(lockedRound := round, lockedPropose := Some(hash)), round, hash, time)
    case EnterRound(r) =>
      var s1 := s.(round := r);
      if s.lockedPropose.Some? then SendPrevote(net, s1, r, s.lockedPropose.value) else Effect(s1, [])
    case LearnCertificate(ps, blockHash) =>
      Effect(s.(certs := s.certs + {(Height(s), MessageRound(ps[0]), blockHash)}), [])
    case Commit(b) => Effect(NewHeight(s, b), [])
    case Halt => Effect(s.(halted := true), [])
  }
}
