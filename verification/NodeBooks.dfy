/**
 What a node keeps besides its votes: the chain, the proposes it knows, the blocks it has built
 from them, the majorities of precommits that wait for a propose, and the pool of
 transactions; and how each of its operations keeps them consistent.
 */
module NodeBooks {
  import opened Wrappers
  import opened ConsensusModel

  datatype ProposeState = ProposeState(propose: Propose, unknownTxs: set<TxId>, blockHash: Option<Hash>)

  type Certs = set<(nat, nat, Hash)>

  type Unknown = map<Hash, seq<(nat, Hash)>>

  datatype Books = Books(
    chain: seq<Block>,
    round: nat,
    certs: Certs,
    proposes: map<Hash, ProposeState>,
    blocks: map<Hash, Block>,
    unknownProposes: Unknown,
    transactions: set<TxId>)

  /** None of the transactions is in a block yet. */
  ghost predicate Unused(chain: seq<Block>, txs: seq<TxId>) {
    forall tx | tx in txs :: !Committed(chain, tx)
  }

  /** A known propose is of this height and none of its transactions is in a block; an executed
      one has its block. */
  ghost predicate ProposeOk(net: Net, chain: seq<Block>, round: nat, blocks: map<Hash, Block>, hash: Hash,
      state: ProposeState) {
    var p := state.propose;
    && hash == ProposeHash(p) && p.height == |chain| && p.round <= round && Unused(chain, p.txs)
    && (state.blockHash.Some? ==>
          state.blockHash.value == BlockHash(MakeBlock(net, chain, p.validator, p.txs))
          && state.blockHash.value in blocks)
  }

  /** A stored block is one that this node builds on its chain. */
  ghost predicate BlockOk(net: Net, chain: seq<Block>, hash: Hash, b: Block) {
    hash == BlockHash(b) && b == MakeBlock(net, chain, b.proposer, b.txs) && Unused(chain, b.txs)
  }

  ghost predicate Seen(certs: Certs, blockHash: Hash) {
    exists c | c in certs :: c.2 == blockHash
  }

  /** A block at its place in the chain: it carries its height, the hash of the block before it and
      the hash of the state that its transactions lead to, and none of them is in an earlier block. */
  ghost predicate Linked(net: Net, chain: seq<Block>, i: nat)
    requires i < |chain|
  {
    var b := chain[i];
    && b.height == i && b.prevHash == (if i == 0 then OtherHash(0) else BlockHash(chain[i - 1]))
    && b.stateHash == net.exec(chain[..i], b.txs)
    && forall j, tx | 0 <= j < i && tx in b.txs :: tx !in chain[j].txs
  }

  /** Every block above the genesis is such a block. */
  ghost predicate ChainOk(net: Net, chain: seq<Block>) {
    net.genesis <= chain && forall i | |net.genesis| <= i < |chain| :: Linked(net, chain, i)
  }

  ghost predicate Consistent(net: Net, books: Books) {
    && ChainOk(net, books.chain)
    && (forall hash | hash in books.proposes ::
          ProposeOk(net, books.chain, books.round, books.blocks, hash, books.proposes[hash]))
    && (forall hash | hash in books.blocks :: BlockOk(net, books.chain, hash, books.blocks[hash]))
    && (forall hash, i | hash in books.unknownProposes && 0 <= i < |books.unknownProposes[hash]| ::
          Seen(books.certs, books.unknownProposes[hash][i].1))
    && (forall tx | tx in books.transactions :: !Committed(books.chain, tx))
  }

  // ----- What they say -----

  lemma KnownIsCurrent(net: Net, books: Books, hash: Hash)
    requires Consistent(net, books) && hash in books.proposes
    ensures var p := books.proposes[hash].propose;
            hash == ProposeHash(p) && Current(hash, |books.chain|) && p.round <= books.round
  {
    assert ProposeOk(net, books.chain, books.round, books.blocks, hash, books.proposes[hash]);
  }

  lemma WaitingSeen(net: Net, books: Books, hash: Hash)
    requires Consistent(net, books) && hash in books.unknownProposes
    ensures forall i | 0 <= i < |books.unknownProposes[hash]| :: Seen(books.certs, books.unknownProposes[hash][i].1)
  {
  }

  lemma StoredBlock(net: Net, books: Books, hash: Hash)
    requires Consistent(net, books) && hash in books.blocks
    ensures var b := books.blocks[hash];
            hash == BlockHash(b) && b == MakeBlock(net, books.chain, b.proposer, b.txs)
  {
    assert BlockOk(net, books.chain, hash, books.blocks[hash]);
  }

  lemma ExecutedBlock(net: Net, books: Books, hash: Hash)
    requires Consistent(net, books) && hash in books.proposes && books.proposes[hash].blockHash.Some?
    ensures var p, bh := books.proposes[hash].propose, books.proposes[hash].blockHash.value;
            && hash == ProposeHash(p) && bh in books.blocks
            && bh == BlockHash(MakeBlock(net, books.chain, p.validator, p.txs))
  {
    assert ProposeOk(net, books.chain, books.round, books.blocks, hash, books.proposes[hash]);
  }

  lemma PoolUnused(net: Net, books: Books, txs: seq<TxId>)
    requires Consistent(net, books) && forall tx | tx in txs :: tx in books.transactions
    ensures Unused(books.chain, txs)
  {
  }

  // ----- What keeps them -----

  lemma LaterRound(net: Net, books: Books, round: nat)
    requires Consistent(net, books) && books.round <= round
    ensures Consistent(net, books.(round := round))
  {
    hide ChainOk, BlockOk, Unused;
    forall hash | hash in books.proposes
      ensures ProposeOk(net, books.chain, round, books.blocks, hash, books.proposes[hash])
    {
      assert ProposeOk(net, books.chain, books.round, books.blocks, hash, books.proposes[hash]);
    }
  }

  lemma MoreCerts(net: Net, books: Books, certs: Certs)
    requires Consistent(net, books) && books.certs <= certs
    ensures Consistent(net, books.(certs := certs))
  {
    hide ChainOk, ProposeOk, BlockOk;
  }

  lemma MoreProposes(net: Net, books: Books, p: Propose, unknown: set<TxId>)
    requires Consistent(net, books)
    requires p.height == |books.chain| && p.round <= books.round && Unused(books.chain, p.txs)
    ensures Consistent(net, books.(proposes := books.proposes[ProposeHash(p) := ProposeState(p, unknown, None)]))
  {
    hide ChainOk, BlockOk;
  }

  /** The same proposes, waiting for the same transactions; some may have been executed. */
  ghost predicate SameProposes(before: map<Hash, ProposeState>, after: map<Hash, ProposeState>) {
    && after.Keys == before.Keys
    && forall h | h in after :: after[h].propose == before[h].propose && after[h].unknownTxs == before[h].unknownTxs
  }

  function WithoutTx(proposes: map<Hash, ProposeState>, tx: TxId): (r: map<Hash, ProposeState>)
    ensures r.Keys == proposes.Keys
    ensures forall h | h in r :: r[h] == proposes[h].(unknownTxs := proposes[h].unknownTxs - {tx})
  {
    map h | h in proposes :: proposes[h].(unknownTxs := proposes[h].unknownTxs - {tx})
  }

  /** A transaction arrives: no propose waits for it any longer, and it may enter the pool. */
  lemma MoreTransactions(net: Net, books: Books, tx: TxId)
    requires Consistent(net, books) && !Committed(books.chain, tx)
    ensures var left := books.(proposes := WithoutTx(books.proposes, tx));
            Consistent(net, left) && Consistent(net, left.(transactions := books.transactions + {tx}))
  {
    hide ChainOk, BlockOk;
    forall hash | hash in books.proposes
      ensures ProposeOk(net, books.chain, books.round, books.blocks, hash, WithoutTx(books.proposes, tx)[hash])
    {
      assert ProposeOk(net, books.chain, books.round, books.blocks, hash, books.proposes[hash]);
    }
  }

  /** The list holds exactly the proposes that wait for no transaction, with their rounds. */
  ghost predicate ListsFull(proposes: map<Hash, ProposeState>, full: seq<(Hash, nat)>) {
    && (forall i | 0 <= i < |full| ::
          && full[i].0 in proposes && proposes[full[i].0].unknownTxs == {}
          && full[i].1 == proposes[full[i].0].propose.round)
    && (forall h | h in proposes && proposes[h].unknownTxs == {} :: (h, proposes[h].propose.round) in full)
  }

  /** When a transaction arrives, a propose that waits for no other one is listed, and the first one
      listed is such a propose. */
  lemma FirstFull(proposes: map<Hash, ProposeState>, full: seq<(Hash, nat)>, tx: TxId)
    requires ListsFull(WithoutTx(proposes, tx), full)
    ensures full == [] <==> forall h | h in proposes :: !(proposes[h].unknownTxs <= {tx})
    ensures full != [] ==> full[0].0 in proposes && proposes[full[0].0].unknownTxs <= {tx}
  {
    var left := WithoutTx(proposes, tx);
    if h :| h in proposes && proposes[h].unknownTxs <= {tx} {
      assert left[h].unknownTxs == {};
      assert (h, left[h].propose.round) in full;
    }
    if full != [] {
      assert left[full[0].0].unknownTxs == {};
      assert proposes[full[0].0].unknownTxs - {tx} == {};
    }
  }

  lemma TwoFull(proposes: map<Hash, ProposeState>, full: seq<(Hash, nat)>, tx: TxId)
    requires ListsFull(WithoutTx(proposes, tx), full)
    requires exists h1, h2 | h1 in proposes && h2 in proposes ::
               h1 != h2 && proposes[h1].unknownTxs <= {tx} && proposes[h2].unknownTxs <= {tx}
    ensures |full| >= 2
  {
    var after := WithoutTx(proposes, tx);
    var h1, h2 :| h1 in proposes && h2 in proposes
                  && h1 != h2 && proposes[h1].unknownTxs <= {tx} && proposes[h2].unknownTxs <= {tx};
    assert after[h1].unknownTxs == {} && after[h2].unknownTxs == {};
    var a, b := (h1, after[h1].propose.round), (h2, after[h2].propose.round);
    assert a in full && b in full && a != b;
  }

  lemma MoreBlocks(net: Net, books: Books, b: Block)
    requires Consistent(net, books)
    requires b == MakeBlock(net, books.chain, b.proposer, b.txs) && Unused(books.chain, b.txs)
    ensures Consistent(net, books.(blocks := books.blocks[BlockHash(b) := b]))
  {
    hide ChainOk, Unused;
    var blocks := books.blocks[BlockHash(b) := b];
    forall hash | hash in books.proposes
      ensures ProposeOk(net, books.chain, books.round, blocks, hash, books.proposes[hash])
    {
      assert ProposeOk(net, books.chain, books.round, books.blocks, hash, books.proposes[hash]);
    }
    forall hash | hash in books.blocks ensures BlockOk(net, books.chain, hash, blocks[hash]) {
      assert BlockOk(net, books.chain, hash, books.blocks[hash]);
    }
  }

  /** A propose is executed: its block is stored and noted. */
  lemma MoreExecuted(net: Net, books: Books, hash: Hash)
    requires Consistent(net, books) && hash in books.proposes
    ensures var p := books.proposes[hash].propose;
            var b := MakeBlock(net, books.chain, p.validator, p.txs);
            Consistent(net, books.(
              blocks := books.blocks[BlockHash(b) := b],
              proposes := books.proposes[hash := books.proposes[hash].(blockHash := Some(BlockHash(b)))]))
  {
    var p := books.proposes[hash].propose;
    var b := MakeBlock(net, books.chain, p.validator, p.txs);
    assert ProposeOk(net, books.chain, books.round, books.blocks, hash, books.proposes[hash]);
    MoreBlocks(net, books, b);
    Noted(net, books.(blocks := books.blocks[BlockHash(b) := b]), hash);
  }

  lemma Noted(net: Net, books: Books, hash: Hash)
    requires Consistent(net, books) && hash in books.proposes
    requires var p := books.proposes[hash].propose;
             BlockHash(MakeBlock(net, books.chain, p.validator, p.txs)) in books.blocks
    ensures var p := books.proposes[hash].propose;
            var bh := BlockHash(MakeBlock(net, books.chain, p.validator, p.txs));
            Consistent(net, books.(proposes := books.proposes[hash := books.proposes[hash].(blockHash := Some(bh))]))
  {
    hide ChainOk, BlockOk, Unused;
    assert ProposeOk(net, books.chain, books.round, books.blocks, hash, books.proposes[hash]);
  }

  function WithEntry(unknown: Unknown, hash: Hash, entry: (nat, Hash)): Unknown {
    unknown[hash := (if hash in unknown then unknown[hash] else []) + [entry]]
  }

  lemma MoreUnknown(net: Net, books: Books, hash: Hash, entry: (nat, Hash))
    requires Consistent(net, books) && Seen(books.certs, entry.1)
    ensures Consistent(net, books.(unknownProposes := WithEntry(books.unknownProposes, hash, entry)))
  {
    hide ChainOk, ProposeOk, BlockOk;
  }

  lemma LessUnknown(net: Net, books: Books, hash: Hash)
    requires Consistent(net, books)
    ensures Consistent(net, books.(unknownProposes := books.unknownProposes - {hash}))
  {
    hide ChainOk, ProposeOk, BlockOk;
  }

  /** A stored block is appended: the proposes and the other blocks of the height go, and so do the
      transactions of the block from the pool. */
  lemma OneBlockLonger(net: Net, books: Books, hash: Hash)
    requires Consistent(net, books) && hash in books.blocks
    ensures var b := books.blocks[hash];
            var pool := books.transactions - set tx | tx in b.txs;
            Consistent(net, Books(books.chain + [b], 1, books.certs, map[], map[], books.unknownProposes, pool))
  {
    hide Linked;
    assert BlockOk(net, books.chain, hash, books.blocks[hash]);
    ChainExtends(net, books.chain, books.blocks[hash]);
  }

  lemma ChainExtends(net: Net, chain: seq<Block>, b: Block)
    requires ChainOk(net, chain) && b == MakeBlock(net, chain, b.proposer, b.txs) && Unused(chain, b.txs)
    ensures ChainOk(net, chain + [b])
  {
    var longer := chain + [b];
    forall i | |net.genesis| <= i < |longer| ensures Linked(net, longer, i) {
      assert longer[..i] == chain[..i];
      if i < |chain| {
        assert Linked(net, chain, i);
      } else {
        assert chain[..i] == chain;
      }
    }
  }
}
