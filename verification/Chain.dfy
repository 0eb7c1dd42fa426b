/**
 The tables of the blockchain: blocks, the transactions in them and where they are, and the
 configurations with the heights they start at.  Hashes are symbolic: the hash of a block or
 of a configuration is that block or configuration.  The data of the services is kept apart
 and changed through a fork.
 */
module Chain {
  import opened Wrappers
  import F = Fork

  type Height = nat

  datatype Hash =
    | Zero
    | Other(n: nat)
    | OfBlock(block: Block)
    | OfConfig(config: Config)
    | OfList(items: seq<Hash>)

  datatype Block = Block(proposer: nat, height: Height, txCount: nat, prevHash: Hash, txHash: Hash, stateHash: Hash)

  datatype Config = Config(previous: Hash, actualFrom: Height, body: nat)

  datatype ConfigRef = ConfigRef(actualFrom: Height, hash: Hash)

  datatype Location = Location(height: Height, index: nat)

  datatype Tables = Tables(
    transactions: map<Hash, nat>,
    locations: map<Hash, Location>,
    blocks: map<Hash, Block>,
    blockHashes: seq<Hash>,
    blockTxs: map<Height, seq<Hash>>,
    precommits: map<Hash, seq<nat>>,
    configs: map<Hash, Config>,
    refs: seq<ConfigRef>)

  const EMPTY := Tables(map[], map[], map[], [], map[], map[], map[], [])

  datatype Database = Database(tables: Tables, services: F.Data)

  /** A list table that was never written is empty. */
  function Txs(t: Tables, h: Height): seq<Hash> {
    if h in t.blockTxs then t.blockTxs[h] else []
  }

  // ----- Configurations -----

  /** The configurations form a chain: each names the hash of the one before it and starts
      later. */
  ghost predicate ConfigsLinked(t: Tables) {
    && (forall i | 0 <= i < |t.refs| ::
          && t.refs[i].hash in t.configs
          && t.refs[i].hash == OfConfig(t.configs[t.refs[i].hash])
          && t.configs[t.refs[i].hash].actualFrom == t.refs[i].actualFrom)
    && (forall i | 0 < i < |t.refs| :: t.configs[t.refs[i].hash].previous == t.refs[i - 1].hash)
    && (forall i, j | 0 <= i < j < |t.refs| :: t.refs[i].actualFrom < t.refs[j].actualFrom)
  }

  /** `commit_configuration`; `None` is the panic on a wrong hash or a height that is not later. */
  function CommitConfiguration(t: Tables, cfg: Config): (r: Option<Tables>)
    ensures r.Some? <==>
            || t.refs == []
            || (cfg.previous == t.refs[|t.refs| - 1].hash && t.refs[|t.refs| - 1].actualFrom < cfg.actualFrom)
    ensures r.Some? ==> |r.value.refs| == |t.refs| + 1 && t.refs <= r.value.refs
    ensures r.Some? ==> t.configs.Keys <= r.value.configs.Keys
    ensures r.Some? && ConfigsLinked(t) ==> ConfigsLinked(r.value)
  {
    if t.refs != [] && t.refs[|t.refs| - 1].hash != cfg.previous then None
    else if t.refs != [] && cfg.actualFrom <= t.refs[|t.refs| - 1].actualFrom then None
    else Some(t.(configs := t.configs[OfConfig(cfg) := cfg],
                 refs := t.refs + [ConfigRef(cfg.actualFrom, OfConfig(cfg))]))
  }

  /** `find_configurations_index_by_height`: the last configuration that starts at or before the
      height; `None` is the panic when there is none. */
  method FindConfigurationIndex(t: Tables, height: Height) returns (r: Option<nat>)
    ensures r.Some? ==> r.value < |t.refs| && t.refs[r.value].actualFrom <= height
                        && forall i | r.value < i < |t.refs| :: t.refs[i].actualFrom > height
    ensures r.None? ==> forall i | 0 <= i < |t.refs| :: t.refs[i].actualFrom > height
  {
    var i := |t.refs|;
    while i > 0
      invariant 0 <= i <= |t.refs| && forall k | i <= k < |t.refs| :: t.refs[k].actualFrom > height
    {
      i := i - 1;
      if t.refs[i].actualFrom <= height {
        return Some(i);
      }
    }
    return None;
  }

  /** The configuration in force at a height: it started, and no other started since. */
  ghost predicate InForce(t: Tables, cfg: Config, height: Height) {
    && OfConfig(cfg) in t.configs && (exists i | 0 <= i < |t.refs| :: t.refs[i].hash == OfConfig(cfg))
    && cfg.actualFrom <= height
    && forall i | 0 <= i < |t.refs| && t.refs[i].actualFrom <= height :: t.refs[i].actualFrom <= cfg.actualFrom
  }

  /** A configuration comes into force at its height, and until then nothing changes. */
  lemma CommittedInForce(t: Tables, cfg: Config, other: Config, height: Height)
    requires ConfigsLinked(t) && CommitConfiguration(t, cfg).Some?
    ensures InForce(CommitConfiguration(t, cfg).value, cfg, cfg.actualFrom)
    ensures height < cfg.actualFrom && InForce(t, other, height) ==>
              InForce(CommitConfiguration(t, cfg).value, other, height)
  {
    var u := CommitConfiguration(t, cfg).value;
    assert u.refs[|t.refs|].hash == OfConfig(cfg);
    if InForce(t, other, height) {
      var i :| 0 <= i < |t.refs| && t.refs[i].hash == OfConfig(other);
      assert u.refs[i].hash == OfConfig(other);
    }
  }

  /** There is at most one. */
  lemma InForceUnique(t: Tables, a: Config, b: Config, height: Height)
    requires ConfigsLinked(t) && InForce(t, a, height) && InForce(t, b, height)
    ensures a == b
  {
    var i :| 0 <= i < |t.refs| && t.refs[i].hash == OfConfig(a);
    var j :| 0 <= j < |t.refs| && t.refs[j].hash == OfConfig(b);
    assert t.refs[i].actualFrom == a.actualFrom && t.refs[j].actualFrom == b.actualFrom;
  }

  method ConfigurationByHeight(t: Tables, height: Height) returns (r: Option<Config>)
    requires ConfigsLinked(t)
    ensures r.Some? ==> InForce(t, r.value, height)
    ensures r.Some? <==> t.refs != [] && t.refs[0].actualFrom <= height
  {
    var idx := FindConfigurationIndex(t, height);
    if idx.None? {
      return None;
    }
    r := Some(t.configs[t.refs[idx.value].hash]);
  }

  /** The configuration that comes into force next, if one is scheduled. */
  method FollowingConfiguration(t: Tables) returns (r: Option<Config>)
    requires ConfigsLinked(t) && t.refs != [] && t.refs[0].actualFrom == 0
    ensures r.Some? ==> r.value.actualFrom > |t.blockHashes| && InForce(t, r.value, r.value.actualFrom)
                        && forall h | |t.blockHashes| <= h < r.value.actualFrom :: !InForce(t, r.value, h)
    ensures r.Some? ==> forall i | 0 <= i < |t.refs| && t.refs[i].actualFrom > |t.blockHashes| ::
              r.value.actualFrom <= t.refs[i].actualFrom
    ensures r.None? ==> forall i | 0 <= i < |t.refs| :: t.refs[i].actualFrom <= |t.blockHashes|
  {
    var idx := FindConfigurationIndex(t, |t.blockHashes|);
    if idx.Some? && idx.value + 1 < |t.refs| {
      r := Some(t.configs[t.refs[idx.value + 1].hash]);
    } else {
      r := None;
    }
  }

  /** The configuration before the one in force, linked to it by its hash. */
  method PreviousConfiguration(t: Tables) returns (r: Option<Config>)
    requires ConfigsLinked(t) && t.refs != [] && t.refs[0].actualFrom == 0
    ensures r.Some? ==> forall cfg | InForce(t, cfg, |t.blockHashes|) :: cfg.previous == OfConfig(r.value)
    ensures r.None? ==> forall cfg | InForce(t, cfg, |t.blockHashes|) :: OfConfig(cfg) == t.refs[0].hash
  {
    var idx := FindConfigurationIndex(t, |t.blockHashes|);
    ghost var current := t.configs[t.refs[idx.value].hash];
    forall cfg | InForce(t, cfg, |t.blockHashes|) ensures cfg == current {
      InForceUnique(t, cfg, current, |t.blockHashes|);
    }
    if idx.value > 0 {
      r := Some(t.configs[t.refs[idx.value - 1].hash]);
    } else {
      r := None;
    }
  }

  // ----- Transactions -----

  /** What a transaction may do: write to the tables of its service, schedule a configuration, or
      fail, either by itself or because the storage does. */
  datatype Op = Write(write: F.Write) | Configure(cfg: Config) | Fail | StorageFail

  datatype Outcome = Done(tables: Tables) | Panicked | StorageError

  datatype Transaction = Transaction(raw: nat, program: (Tables, F.Data) -> seq<Op>)

  function Do(op: Op, t: Tables): Outcome {
    match op
    case Write(_) => Done(t)
    case Configure(cfg) => (match CommitConfiguration(t, cfg) case None => Panicked case Some(u) => Done(u))
    case Fail => Panicked
    case StorageFail => StorageError
  }

  function Run(ops: seq<Op>, t: Tables): Outcome {
    if ops == [] then Done(t)
    else
      match Do(ops[0], t)
      case Done(u) => Run(ops[1..], u)
      case Panicked => Panicked
      case StorageError => StorageError
  }

  /** What is written before the end or the failure. */
  function Written(ops: seq<Op>, t: Tables): seq<F.Write> {
    if ops == [] || !Do(ops[0], t).Done? then []
    else (if ops[0].Write? then [ops[0].write] else []) + Written(ops[1..], Do(ops[0], t).tables)
  }

  /** The writes and the configurations of a program, in order. */
  function Writes(ops: seq<Op>): seq<F.Write> {
    if ops == [] then [] else (if ops[0].Write? then [ops[0].write] else []) + Writes(ops[1..])
  }

  function Scheduled(ops: seq<Op>): seq<Config> {
    if ops == [] then [] else (if ops[0].Configure? then [ops[0].cfg] else []) + Scheduled(ops[1..])
  }

  /** The references of some configurations behind those of the tables. */
  ghost predicate Schedules(t: Tables, cfgs: seq<Config>, u: Tables) {
    && |u.refs| == |t.refs| + |cfgs| && t.refs <= u.refs
    && forall i | 0 <= i < |cfgs| ::
         u.refs[|t.refs| + i] == ConfigRef(cfgs[i].actualFrom, OfConfig(cfgs[i])) && OfConfig(cfgs[i]) in u.configs
  }

  /** A program that ends well has done all it says. */
  lemma {:induction false} DoneMeans(ops: seq<Op>, t: Tables)
    requires Run(ops, t).Done?
    ensures Fail !in ops && StorageFail !in ops
    ensures Written(ops, t) == Writes(ops) && Schedules(t, Scheduled(ops), Run(ops, t).tables)
    decreases |ops|
  {
    hide Schedules, Do;
    if ops == [] {
      assert Schedules(t, [], t) by {
        NoneScheduled(t);
      }
    } else {
      var op, u := ops[0], Do(ops[0], t).tables;
      DoneMeans(ops[1..], u);
      OneScheduled(op, t);
      RunKeeps(ops[1..], u);
      SchedulesTwice(t, if op.Configure? then [op.cfg] else [], u, Scheduled(ops[1..]), Run(ops, t).tables);
      assert ops == [op] + ops[1..];
    }
  }

  lemma NoneScheduled(t: Tables)
    ensures Schedules(t, [], t)
  {
  }

  lemma OneScheduled(op: Op, t: Tables)
    requires Do(op, t).Done?
    ensures op != Fail && op != StorageFail
    ensures Schedules(t, if op.Configure? then [op.cfg] else [], Do(op, t).tables)
  {
  }

  lemma SchedulesTwice(t: Tables, first: seq<Config>, u: Tables, second: seq<Config>, v: Tables)
    requires Schedules(t, first, u) && Schedules(u, second, v) && u.configs.Keys <= v.configs.Keys
    ensures Schedules(t, first + second, v)
  {
    forall i | 0 <= i < |first + second|
      ensures v.refs[|t.refs| + i] == ConfigRef((first + second)[i].actualFrom, OfConfig((first + second)[i]))
      ensures OfConfig((first + second)[i]) in v.configs
    {
      if i < |first| {
        assert u.refs[|t.refs| + i] == ConfigRef(first[i].actualFrom, OfConfig(first[i]));
      } else {
        assert v.refs[|u.refs| + (i - |first|)]
            == ConfigRef(second[i - |first|].actualFrom, OfConfig(second[i - |first|]));
      }
    }
  }

  /** One that does not has met a failure, or a configuration that does not fit, behind a part
      that ends well; a failure of the storage is told apart from the others. */
  lemma {:induction false} FailedMeans(ops: seq<Op>, t: Tables) returns (i: nat)
    requires !Run(ops, t).Done?
    ensures i < |ops| && Run(ops[..i], t).Done? && Written(ops, t) == Writes(ops[..i])
    ensures match ops[i]
            case StorageFail => Run(ops, t) == StorageError
            case Fail => Run(ops, t) == Panicked
            case Configure(cfg) =>
              Run(ops, t) == Panicked && CommitConfiguration(Run(ops[..i], t).tables, cfg).None?
            case Write(_) => false
    decreases |ops|
  {
    hide CommitConfiguration;
    if !Do(ops[0], t).Done? {
      i := 0;
    } else {
      var j := FailedMeans(ops[1..], Do(ops[0], t).tables);
      i := j + 1;
      assert ops[..i] == [ops[0]] + ops[1..][..j];
      assert ops[..i][1..] == ops[1..][..j];
    }
  }

  /** The chain itself is the same in both. */
  ghost predicate SameChain(t: Tables, u: Tables) {
    && t.transactions == u.transactions && t.locations == u.locations && t.blocks == u.blocks
    && t.blockHashes == u.blockHashes && t.blockTxs == u.blockTxs && t.precommits == u.precommits
  }

  /** The configurations are linked, and one is in force from the first height on. */
  ghost predicate Configured(t: Tables) {
    ConfigsLinked(t) && t.refs != [] && t.refs[0].actualFrom == 0
  }

  lemma DoKeeps(op: Op, t: Tables)
    requires Do(op, t).Done?
    ensures SameChain(t, Do(op, t).tables) && t.refs <= Do(op, t).tables.refs
    ensures t.configs.Keys <= Do(op, t).tables.configs.Keys
    ensures Configured(t) ==> Configured(Do(op, t).tables)
  {
    hide ConfigsLinked;
  }

  lemma {:induction false} RunKeeps(ops: seq<Op>, t: Tables)
    requires Run(ops, t).Done?
    ensures SameChain(t, Run(ops, t).tables) && t.refs <= Run(ops, t).tables.refs
    ensures t.configs.Keys <= Run(ops, t).tables.configs.Keys
    ensures Configured(t) ==> Configured(Run(ops, t).tables)
    decreases |ops|
  {
    hide Configured, Do;
    if ops == [] {
    } else {
      DoKeeps(ops[0], t);
      RunKeeps(ops[1..], Do(ops[0], t).tables);
    }
  }

  /** The raw transaction, its place in the list of the block, and the way back to that place. */
  function Record(t: Tables, height: Height, index: nat, hash: Hash, raw: nat): Tables {
    t.(transactions := t.transactions[hash := raw],
       blockTxs := t.blockTxs[height := Txs(t, height) + [hash]],
       locations := t.locations[hash := Location(height, index)])
  }

  /** The tables while a block is being built, and the patch over the data of the services. */
  datatype Fork = Fork(tables: Tables, patch: F.Patch)

  /** One transaction of a block: recorded whether it succeeds or panics.  When it panics, the
      tables are as before, and so are the data of the services as far as the fork can roll
      them back. */
  function StepTx(data: F.Data, s: Fork, height: Height, index: nat, hash: Hash, tx: Transaction): Option<Fork> {
    var ops := tx.program(s.tables, F.Merged(data, s.patch));
    var written := Written(ops, s.tables);
    match Run(ops, s.tables)
    case Done(u) => Some(Fork(Record(u, height, index, hash, tx.raw), F.AppliedAll(data, s.patch, written)))
    case Panicked =>
      Some(Fork(Record(s.tables, height, index, hash, tx.raw), s.patch - F.Forgotten(data, s.patch, written)))
    case StorageError => None
  }

  /** Of a transaction that panics nothing but its record is left exactly when it did not clear an
      entry of an earlier transaction of the block that it had not logged before. */
  lemma PanicLeavesNothing(data: F.Data, s: Fork, height: Height, index: nat, hash: Hash, tx: Transaction)
    requires Run(tx.program(s.tables, F.Merged(data, s.patch)), s.tables) == Panicked
    ensures var after := StepTx(data, s, height, index, hash, tx).value;
            && after.tables == Record(s.tables, height, index, hash, tx.raw)
            && (after.patch == s.patch <==>
                F.Undoable(data, s.patch, Written(tx.program(s.tables, F.Merged(data, s.patch)), s.tables)))
  {
    hide F.Undoable, F.Forgotten, F.Merged;
    F.UndoableExactly(data, s.patch, Written(tx.program(s.tables, F.Merged(data, s.patch)), s.tables));
  }

  /** The write of an earlier transaction of the block that a transaction destroys by clearing it
      and panicking. */
  lemma PanicDestroys(k: F.Key, v: F.Value, tx: Transaction)
    requires tx.program(EMPTY, map[k := v]) == [Write(F.Clear(k.name, k.bytes)), Fail]
    ensures F.Merged(map[], map[k := F.Put(v)]) == map[k := v]
    ensures StepTx(map[], Fork(EMPTY, map[k := F.Put(v)]), 0, 1, Zero, tx)
         == Some(Fork(Record(EMPTY, 0, 1, Zero, tx.raw), map[]))
  {
    var patch: F.Patch := map[k := F.Put(v)];
    assert F.Merged(map[], patch) == map[k := v];
    var clear := F.Clear(k.name, k.bytes);
    ClearAndFail(clear);
    assert F.Drops([clear][0], k) && k !in F.LogsAll(map[], [clear][..0]) && F.Forgets(map[], [clear], k);
    assert F.Forgotten(map[], patch, [clear]) == {k} && patch - {k} == map[];
  }

  lemma ClearAndFail(w: F.Write)
    ensures Written([Write(w), Fail], EMPTY) == [w] && Run([Write(w), Fail], EMPTY) == Panicked
  {
    assert [Write(w), Fail][1..] == [Fail];
    assert Written([Fail], EMPTY) == [];
  }

  function ExecuteAll(data: F.Data, s: Fork, height: Height, index: nat, hashes: seq<Hash>,
      pool: map<Hash, Transaction>): Option<Fork>
    requires forall h | h in hashes :: h in pool
    decreases |hashes|
  {
    if hashes == [] then Some(s)
    else
      match StepTx(data, s, height, index, hashes[0], pool[hashes[0]])
      case None => None
      case Some(u) => ExecuteAll(data, u, height, index + 1, hashes[1..], pool)
  }

  // ----- The same on a plain database -----

  /** What a fork shows. */
  ghost function Plain(data: F.Data, s: Fork): Database {
    Database(s.tables, F.Merged(data, s.patch))
  }

  /** One transaction on a database, when the services' data were `data` before the block: the
      writes of one that ends well are done; of one that panics, the keys that it cleared before
      it logged them are as before the block. */
  ghost function PlayTx(data: F.Data, d: Database, height: Height, index: nat, hash: Hash, tx: Transaction):
      Option<Database> {
    var ops := tx.program(d.tables, d.services);
    match Run(ops, d.tables)
    case Done(u) => Some(Database(Record(u, height, index, hash, tx.raw), F.ShownAll(data, d.services, Writes(ops))))
    case Panicked =>
      var reverted := F.Reverted(data, d.services, Written(ops, d.tables));
      Some(Database(Record(d.tables, height, index, hash, tx.raw), reverted))
    case StorageError => None
  }

  ghost function PlayAll(data: F.Data, d: Database, height: Height, index: nat, hashes: seq<Hash>,
      pool: map<Hash, Transaction>): Option<Database>
    requires forall h | h in hashes :: h in pool
    decreases |hashes|
  {
    if hashes == [] then Some(d)
    else
      match PlayTx(data, d, height, index, hashes[0], pool[hashes[0]])
      case None => None
      case Some(e) => PlayAll(data, e, height, index + 1, hashes[1..], pool)
  }

  lemma StepPlays(data: F.Data, s: Fork, height: Height, index: nat, hash: Hash, tx: Transaction)
    ensures var step, played := StepTx(data, s, height, index, hash, tx),
                                PlayTx(data, Plain(data, s), height, index, hash, tx);
            step.Some? == played.Some? && (step.Some? ==> Plain(data, step.value) == played.value)
  {
    hide F.Merged, F.AppliedAll, F.ShownAll, F.Forgotten, F.Reverted;
    var ops := tx.program(s.tables, F.Merged(data, s.patch));
    if Run(ops, s.tables).Done? {
      DoneMeans(ops, s.tables);
    }
    F.AppliedShows(data, s.patch, Written(ops, s.tables));
    F.ForgottenShows(data, s.patch, Written(ops, s.tables));
  }

  /** Executing transactions on a fork shows what executing them on a database gives. */
  lemma {:induction false} ExecutePlays(data: F.Data, s: Fork, height: Height, index: nat, hashes: seq<Hash>,
                                        pool: map<Hash, Transaction>)
    requires forall h | h in hashes :: h in pool
    ensures var all, played := ExecuteAll(data, s, height, index, hashes, pool),
                               PlayAll(data, Plain(data, s), height, index, hashes, pool);
            all.Some? == played.Some? && (all.Some? ==> Plain(data, all.value) == played.value)
    decreases |hashes|
  {
    hide StepTx, PlayTx, Plain;
    if hashes == [] {
    } else {
      StepPlays(data, s, height, index, hashes[0], pool[hashes[0]]);
      var step := StepTx(data, s, height, index, hashes[0], pool[hashes[0]]);
      if step.Some? {
        ExecutePlays(data, step.value, height, index + 1, hashes[1..], pool);
      }
    }
  }

  /** The writes of the transactions that end well, in order. */
  ghost function WritesDone(data: F.Data, d: Database, height: Height, index: nat, hashes: seq<Hash>,
      pool: map<Hash, Transaction>): seq<F.Write>
    requires forall h | h in hashes :: h in pool
    decreases |hashes|
  {
    if hashes == [] then []
    else
      var ops, next := pool[hashes[0]].program(d.tables, d.services),
                       PlayTx(data, d, height, index, hashes[0], pool[hashes[0]]);
      (if Run(ops, d.tables).Done? then Writes(ops) else [])
      + if next.Some? then WritesDone(data, next.value, height, index + 1, hashes[1..], pool) else []
  }

  /** Every transaction that panics leaves what it forgets as it was before the block. */
  ghost predicate PanicsHarmless(data: F.Data, d: Database, height: Height, index: nat, hashes: seq<Hash>,
      pool: map<Hash, Transaction>)
    requires forall h | h in hashes :: h in pool
    decreases |hashes|
  {
    hashes == []
    || (var ops, next := pool[hashes[0]].program(d.tables, d.services),
                         PlayTx(data, d, height, index, hashes[0], pool[hashes[0]]);
        && (Run(ops, d.tables) == Panicked ==> Harmless(data, d.services, Written(ops, d.tables)))
        && (next.Some? ==> PanicsHarmless(data, next.value, height, index + 1, hashes[1..], pool)))
  }

  ghost predicate Harmless(data: F.Data, view: F.Data, ws: seq<F.Write>) {
    forall k: F.Key | F.Forgets(data, ws, k) :: F.Lookup(view, k) == F.Lookup(data, k)
  }

  /** When the panics are harmless, the data after a block are those before it with the writes of
      the transactions that end well, and no others, done in order. */
  lemma {:induction false} PlayedWrites(data: F.Data, d: Database, height: Height, index: nat, hashes: seq<Hash>,
                                        pool: map<Hash, Transaction>)
    requires forall h | h in hashes :: h in pool
    requires PlayAll(data, d, height, index, hashes, pool).Some?
    requires PanicsHarmless(data, d, height, index, hashes, pool)
    ensures PlayAll(data, d, height, index, hashes, pool).value.services
         == F.ShownAll(data, d.services, WritesDone(data, d, height, index, hashes, pool))
    decreases |hashes|
  {
    hide F.ShownAll, F.Reverted, Harmless, F.Forgets;
    if hashes == [] {
      F.ShownNone(data, d.services);
    } else {
      var tx := pool[hashes[0]];
      var ops, next := tx.program(d.tables, d.services), PlayTx(data, d, height, index, hashes[0], tx).value;
      PlayedWrites(data, next, height, index + 1, hashes[1..], pool);
      var rest := WritesDone(data, next, height, index + 1, hashes[1..], pool);
      if Run(ops, d.tables).Done? {
        F.ShownTwice(data, d.services, Writes(ops), rest);
      } else {
        HarmlessReverts(data, d.services, Written(ops, d.tables));
        assert [] + rest == rest;
      }
    }
  }

  /** The write is the last one that decides about the key. */
  ghost predicate LastTouch(data: F.Data, ws: seq<F.Write>, k: F.Key, i: nat)
    requires i < |ws|
  {
    F.Touches(data, ws[i], k) && forall j | i < j < |ws| :: !F.Touches(data, ws[j], k)
  }

  lemma HarmlessReverts(data: F.Data, view: F.Data, ws: seq<F.Write>)
    ensures F.Reverted(data, view, ws) == view <==> Harmless(data, view, ws)
  {
    hide F.Reverted, F.Forgets, F.Lookup;
    F.RevertedExactly(data, view, ws);
  }

  /** A panic after which the patch can be restored is harmless. */
  lemma UndoableIsHarmless(data: F.Data, patch: F.Patch, ws: seq<F.Write>)
    requires F.Undoable(data, patch, ws)
    ensures Harmless(data, F.Merged(data, patch), ws)
  {
    forall k: F.Key | F.Forgets(data, ws, k) ensures F.Lookup(F.Merged(data, patch), k) == F.Lookup(data, k) {
      var i :| 0 <= i < |ws| && F.Drops(ws[i], k) && k !in F.LogsAll(data, ws[..i]);
      assert k !in patch;
    }
  }

  /** Blocks without panics are harmless. */
  lemma {:induction false} NoPanics(data: F.Data, d: Database, height: Height, index: nat, hashes: seq<Hash>,
                                    pool: map<Hash, Transaction>)
    requires forall h | h in hashes :: h in pool
    requires forall h, t, view | h in hashes :: Run(pool[h].program(t, view), t) != Panicked
    ensures PanicsHarmless(data, d, height, index, hashes, pool)
    decreases |hashes|
  {
    hide Harmless, Run, Written, PlayTx;
    if hashes == [] {
    } else {
      var next := PlayTx(data, d, height, index, hashes[0], pool[hashes[0]]);
      if next.Some? {
        NoPanics(data, next.value, height, index + 1, hashes[1..], pool);
      }
    }
  }

  // ----- The chain -----

  function PrevHash(t: Tables, h: Height): Hash
    requires h <= |t.blockHashes|
  {
    if h == 0 then Zero else t.blockHashes[h - 1]
  }

  function LastHash(t: Tables): Hash {
    PrevHash(t, |t.blockHashes|)
  }

  ghost predicate BlockAt(t: Tables, h: Height)
    requires h < |t.blockHashes|
  {
    var hash := t.blockHashes[h];
    && hash in t.blocks
    && var b := t.blocks[hash];
       && hash == OfBlock(b) && b.height == h && b.prevHash == (if h == 0 then Zero else t.blockHashes[h - 1])
       && b.txHash == OfList(Txs(t, h)) && b.txCount == |Txs(t, h)| % 0x1_0000_0000
  }

  /** Every block is stored under its hash and links to the block before it. */
  ghost predicate BlocksLinked(t: Tables) {
    forall h | 0 <= h < |t.blockHashes| :: BlockAt(t, h)
  }

  ghost predicate Occurs(t: Tables, tx: Hash, h: Height, i: nat) {
    i < |Txs(t, h)| && Txs(t, h)[i] == tx
  }

  predicate NotAfter(h: Height, i: nat, at: Location) {
    h < at.height || (h == at.height && i <= at.index)
  }

  /** The location of a transaction is the last place where it occurs, and every transaction
      that occurs has one.  No list is written beyond the height that is being built. */
  ghost predicate TxsLocated(t: Tables) {
    && (forall h | h in t.blockTxs :: h <= |t.blockHashes|)
    && (forall tx | tx in t.locations ::
          tx in t.transactions && Occurs(t, tx, t.locations[tx].height, t.locations[tx].index))
    && (forall tx, h, i | Occurs(t, tx, h, i) :: tx in t.locations && NotAfter(h, i, t.locations[tx]))
  }

  ghost predicate Valid(t: Tables) {
    BlocksLinked(t) && TxsLocated(t) && Txs(t, |t.blockHashes|) == [] && Configured(t)
  }

  lemma RecordKeeps(t: Tables, index: nat, hash: Hash, raw: nat)
    requires BlocksLinked(t) && TxsLocated(t) && index == |Txs(t, |t.blockHashes|)|
    ensures var u := Record(t, |t.blockHashes|, index, hash, raw);
            && BlocksLinked(u) && TxsLocated(u)
            && Txs(u, |t.blockHashes|) == Txs(t, |t.blockHashes|) + [hash]
            && forall h | h != |t.blockHashes| :: Txs(u, h) == Txs(t, h)
  {
    var next := |t.blockHashes|;
    var u := Record(t, next, index, hash, raw);
    assert forall h | h != next :: Txs(u, h) == Txs(t, h);
    forall h | 0 <= h < |u.blockHashes| ensures BlockAt(u, h) {
      assert BlockAt(t, h);
    }
    forall tx, h: nat, i: nat | Occurs(u, tx, h, i) ensures tx in u.locations && NotAfter(h, i, u.locations[tx]) {
      assert Occurs(t, tx, h, i) || (h == next && i == index && tx == hash);
    }
    forall tx | tx in u.locations ensures Occurs(u, tx, u.locations[tx].height, u.locations[tx].index) {
      if tx != hash {
        assert Occurs(t, tx, t.locations[tx].height, t.locations[tx].index);
      }
    }
  }

  /** The chain below the height that is being built is not touched. */
  ghost predicate Extends(t: Tables, u: Tables) {
    && t.blockHashes <= u.blockHashes && t.refs <= u.refs
    && forall h: nat | h < |t.blockHashes| :: Txs(u, h) == Txs(t, h)
  }

  ghost predicate Kept(t: Tables, u: Tables, h: Hash) {
    h in t.transactions && h in u.transactions && u.transactions[h] == t.transactions[h]
  }

  lemma {:induction false} ExecuteKeeps(data: F.Data, s: Fork, index: nat, hashes: seq<Hash>,
      pool: map<Hash, Transaction>)
    requires BlocksLinked(s.tables) && TxsLocated(s.tables) && Configured(s.tables)
    requires index == |Txs(s.tables, |s.tables.blockHashes|)|
    requires forall h | h in hashes :: h in pool
    requires ExecuteAll(data, s, |s.tables.blockHashes|, index, hashes, pool).Some?
    ensures var t, u := s.tables, ExecuteAll(data, s, |s.tables.blockHashes|, index, hashes, pool).value.tables;
            && BlocksLinked(u) && TxsLocated(u) && Configured(u) && Extends(t, u) && u.blockHashes == t.blockHashes
            && u.blocks == t.blocks && u.precommits == t.precommits
            && Txs(u, |t.blockHashes|) == Txs(t, |t.blockHashes|) + hashes
            && (forall h | h in u.transactions ::
                  if h in hashes then u.transactions[h] == pool[h].raw else Kept(t, u, h))
    decreases |hashes|
  {
    hide BlocksLinked, TxsLocated, Configured, StepTx;
    if hashes == [] {
    } else {
      var height := |s.tables.blockHashes|;
      var u := StepTx(data, s, height, index, hashes[0], pool[hashes[0]]).value;
      StepKeeps(data, s, index, hashes[0], pool[hashes[0]]);
      ExecuteKeeps(data, u, index + 1, hashes[1..], pool);
      assert hashes == [hashes[0]] + hashes[1..];
    }
  }

  lemma StepKeeps(data: F.Data, s: Fork, index: nat, hash: Hash, tx: Transaction)
    requires BlocksLinked(s.tables) && TxsLocated(s.tables) && Configured(s.tables)
    requires index == |Txs(s.tables, |s.tables.blockHashes|)|
    requires StepTx(data, s, |s.tables.blockHashes|, index, hash, tx).Some?
    ensures var t, u := s.tables, StepTx(data, s, |s.tables.blockHashes|, index, hash, tx).value.tables;
            && BlocksLinked(u) && TxsLocated(u) && Configured(u) && Extends(t, u) && u.blockHashes == t.blockHashes
            && u.blocks == t.blocks && u.precommits == t.precommits
            && Txs(u, |t.blockHashes|) == Txs(t, |t.blockHashes|) + [hash]
            && u.transactions == t.transactions[hash := tx.raw]
  {
    var t := s.tables;
    var ops := tx.program(t, F.Merged(data, s.patch));
    var u := if Run(ops, t).Done? then Run(ops, t).tables else t;
    if Run(ops, t).Done? {
      RunKeeps(ops, t);
      SameChainKeeps(t, u);
    }
    RecordKeeps(u, index, hash, tx.raw);
  }

  lemma SameChainKeeps(t: Tables, u: Tables)
    requires SameChain(t, u) && BlocksLinked(t) && TxsLocated(t)
    ensures BlocksLinked(u) && TxsLocated(u) && forall h :: Txs(u, h) == Txs(t, h)
  {
    forall h | 0 <= h < |u.blockHashes| ensures BlockAt(u, h) {
      assert BlockAt(t, h);
    }
    assert forall tx, h, i :: Occurs(u, tx, h, i) == Occurs(t, tx, h, i);
  }

  /** The block over what has been executed. */
  function MakeBlock(t: Tables, proposer: nat, height: Height, count: nat, lastHash: Hash, stateHash: Hash): Block {
    Block(proposer, height, count % 0x1_0000_0000, lastHash, OfList(Txs(t, height)), stateHash)
  }

  function AddBlock(t: Tables, b: Block): Tables {
    t.(blockHashes := t.blockHashes + [OfBlock(b)], blocks := t.blocks[OfBlock(b) := b])
  }

  type StateHash = (Tables, F.Data) -> Hash

  /** A patch for the next block: over a database on which the transactions were executed, the
      block that names them, the block before it and the hash of that database. */
  ghost predicate Builds(db: Database, played: Database, proposer: nat, height: Height, count: nat,
      stateHash: StateHash, block: Block, next: Fork) {
    && next.tables == played.tables.(
         blockHashes := db.tables.blockHashes + [OfBlock(block)],
         blocks := played.tables.blocks[OfBlock(block) := block])
    && F.Merged(db.services, next.patch) == played.services
    && block.proposer == proposer && block.height == height && block.txCount == count % 0x1_0000_0000
    && block.prevHash == (if db.tables.blockHashes == [] then Zero
                          else db.tables.blockHashes[|db.tables.blockHashes| - 1])
    && block.txHash == OfList(Txs(played.tables, height))
    && block.stateHash == stateHash(played.tables, played.services)
  }

  /** `create_patch` as a function: the tables with a block for the height on top of the last one and
      the patch for the services, `None` when the storage fails. */
  function NextBlock(db: Database, proposer: nat, height: Height, hashes: seq<Hash>, pool: map<Hash, Transaction>,
      stateHash: StateHash): Option<Fork>
    requires forall h | h in hashes :: h in pool
  {
    match ExecuteAll(db.services, Fork(db.tables, map[]), height, 0, hashes, pool)
    case None => None
    case Some(s) =>
      var state := stateHash(s.tables, F.Merged(db.services, s.patch));
      var b := MakeBlock(s.tables, proposer, height, |hashes|, LastHash(db.tables), state);
      Some(Fork(AddBlock(s.tables, b), s.patch))
  }

  lemma {:induction false} ChainStays(data: F.Data, d: Database, height: Height, index: nat, hashes: seq<Hash>,
                                      pool: map<Hash, Transaction>)
    requires forall h | h in hashes :: h in pool
    requires PlayAll(data, d, height, index, hashes, pool).Some?
    ensures PlayAll(data, d, height, index, hashes, pool).value.tables.blockHashes == d.tables.blockHashes
    decreases |hashes|
  {
    if hashes == [] {
    } else {
      var tx := pool[hashes[0]];
      var ops := tx.program(d.tables, d.services);
      if Run(ops, d.tables).Done? {
        RunKeeps(ops, d.tables);
      }
      ChainStays(data, PlayTx(data, d, height, index, hashes[0], tx).value, height, index + 1, hashes[1..], pool);
    }
  }

  /** It is such a patch, and there is none exactly when the storage fails. */
  lemma NextBlockBuilds(db: Database, proposer: nat, height: Height, hashes: seq<Hash>, pool: map<Hash, Transaction>,
      stateHash: StateHash)
    requires forall h | h in hashes :: h in pool
    ensures var next, played := NextBlock(db, proposer, height, hashes, pool, stateHash),
                                PlayAll(db.services, db, height, 0, hashes, pool);
            && next.Some? == played.Some?
            && (next.Some? ==>
                  && |next.value.tables.blockHashes| == |db.tables.blockHashes| + 1
                  && var last := next.value.tables.blockHashes[|db.tables.blockHashes|];
                     && last.OfBlock?
                     && Builds(db, played.value, proposer, height, |hashes|, stateHash, last.block, next.value))
  {
    hide ExecuteAll, PlayAll, F.Merged;
    var s := Fork(db.tables, map[]);
    F.MergedNone(db.services);
    ExecutePlays(db.services, s, height, 0, hashes, pool);
    if ExecuteAll(db.services, s, height, 0, hashes, pool).Some? {
      ChainStays(db.services, db, height, 0, hashes, pool);
    }
  }

  /** At the next height it keeps everything: the links, the locations, the configurations, and the
      chain below it. */
  lemma NextBlockKeeps(db: Database, proposer: nat, hashes: seq<Hash>, pool: map<Hash, Transaction>,
      stateHash: StateHash)
    requires BlocksLinked(db.tables) && TxsLocated(db.tables) && Configured(db.tables)
    requires Txs(db.tables, |db.tables.blockHashes|) == []
    requires forall h | h in hashes :: h in pool
    requires NextBlock(db, proposer, |db.tables.blockHashes|, hashes, pool, stateHash).Some?
    ensures var t := db.tables;
            var v := NextBlock(db, proposer, |t.blockHashes|, hashes, pool, stateHash).value.tables;
            && Valid(v) && Extends(t, v) && |v.blockHashes| == |t.blockHashes| + 1
            && Txs(v, |t.blockHashes|) == hashes
            && v.precommits == t.precommits
            && (forall h | h in v.transactions ::
                  if h in hashes then v.transactions[h] == pool[h].raw else Kept(t, v, h))
            && v.blocks[v.blockHashes[|t.blockHashes|]].proposer == proposer
  {
    hide TxsLocated, BlocksLinked, ConfigsLinked;
    var t, height := db.tables, |db.tables.blockHashes|;
    var s := Fork(t, map[]);
    ExecuteKeeps(db.services, s, 0, hashes, pool);
    var u := ExecuteAll(db.services, s, height, 0, hashes, pool).value;
    assert Txs(u.tables, height) == hashes;
    var state := stateHash(u.tables, F.Merged(db.services, u.patch));
    var b := MakeBlock(u.tables, proposer, height, |hashes|, PrevHash(t, height), state);
    AddBlockKeeps(u.tables, b);
    ConfigsStay(u.tables, AddBlock(u.tables, b));
  }

  lemma ConfigsStay(t: Tables, u: Tables)
    requires t.configs == u.configs && t.refs == u.refs && ConfigsLinked(t)
    ensures ConfigsLinked(u)
  {
  }

  lemma AddBlockKeeps(t: Tables, b: Block)
    requires BlocksLinked(t) && TxsLocated(t)
    requires b.height == |t.blockHashes| && b.prevHash == PrevHash(t, |t.blockHashes|)
    requires b.txHash == OfList(Txs(t, b.height)) && b.txCount == |Txs(t, b.height)| % 0x1_0000_0000
    ensures var v := AddBlock(t, b);
            && BlocksLinked(v) && TxsLocated(v) && Txs(v, |v.blockHashes|) == []
            && forall h :: Txs(v, h) == Txs(t, h)
  {
    var v := AddBlock(t, b);
    assert forall h :: Txs(v, h) == Txs(t, h);
    forall h | 0 <= h < |v.blockHashes| ensures BlockAt(v, h) {
      if h < |t.blockHashes| {
        assert BlockAt(t, h);
      }
    }
    assert forall tx, h, i :: Occurs(v, tx, h, i) == Occurs(t, tx, h, i);
  }

  // ----- Runs -----

  datatype Batch = Batch(proposer: nat, hashes: seq<Hash>, pool: map<Hash, Transaction>, precommits: seq<nat>)

  /** The databases of a run: each is the one before it with one more committed block. */
  ghost predicate IsRun(run: seq<Database>, commits: seq<Batch>, stateHash: StateHash) {
    && |run| == |commits| + 1
    && forall i | 0 <= i < |commits| :: CommitStep(run[i], commits[i], stateHash, run[i + 1])
  }

  ghost predicate CommitStep(db: Database, c: Batch, stateHash: StateHash, db': Database) {
    && (forall h | h in c.hashes :: h in c.pool)
    && var next := NextBlock(db, c.proposer, |db.tables.blockHashes|, c.hashes, c.pool, stateHash);
       next.Some? && db' == Committed(db, next.value, c.precommits)
  }

  function Committed(db: Database, next: Fork, precommits: seq<nat>): Database
    requires next.tables.blockHashes != []
  {
    var hash := next.tables.blockHashes[|next.tables.blockHashes| - 1];
    Database(WithPrecommits(next.tables, hash, precommits), F.Merged(db.services, next.patch))
  }

  function WithPrecommits(t: Tables, hash: Hash, precommits: seq<nat>): Tables {
    if precommits == [] then t else t.(precommits := t.precommits[hash := PrecommitsOf(t, hash) + precommits])
  }

  lemma OneMorePrecommit(t: Tables, hash: Hash, precommits: seq<nat>, next: nat)
    ensures WithPrecommits(WithPrecommits(t, hash, precommits), hash, [next])
         == WithPrecommits(t, hash, precommits + [next])
  {
    assert PrecommitsOf(t, hash) + precommits + [next] == PrecommitsOf(t, hash) + (precommits + [next]);
    assert precommits == [] ==> precommits + [next] == [next];
    assert t.precommits[hash := PrecommitsOf(t, hash) + precommits][hash := PrecommitsOf(t, hash) + precommits + [next]]
        == t.precommits[hash := PrecommitsOf(t, hash) + precommits + [next]];
  }

  function PrecommitsOf(t: Tables, hash: Hash): seq<nat> {
    if hash in t.precommits then t.precommits[hash] else []
  }

  /** The block and the data that a commit leads to: those of executing its transactions one after
      another on the database, and the block names the hash of that. */
  ghost predicate Follows(db: Database, c: Batch, stateHash: StateHash, hash: Hash, services: F.Data) {
    && (forall h | h in c.hashes :: h in c.pool)
    && var played := PlayAll(db.services, db, |db.tables.blockHashes|, 0, c.hashes, c.pool);
       && played.Some? && services == played.value.services
       && hash.OfBlock? && hash.block.proposer == c.proposer
       && hash.block.stateHash == stateHash(played.value.tables, services)
  }

  lemma CommitStepKeeps(db: Database, c: Batch, stateHash: StateHash, db': Database)
    requires Valid(db.tables) && CommitStep(db, c, stateHash, db')
    ensures Valid(db'.tables) && Extends(db.tables, db'.tables)
    ensures |db'.tables.blockHashes| == |db.tables.blockHashes| + 1
    ensures Txs(db'.tables, |db.tables.blockHashes|) == c.hashes
    ensures Follows(db, c, stateHash, db'.tables.blockHashes[|db.tables.blockHashes|], db'.services)
  {
    NextBlockBuilds(db, c.proposer, |db.tables.blockHashes|, c.hashes, c.pool, stateHash);
    hide TxsLocated, BlocksLinked, ConfigsLinked, NextBlock, PlayAll, F.Merged;
    NextBlockKeeps(db, c.proposer, c.hashes, c.pool, stateHash);
    var v := NextBlock(db, c.proposer, |db.tables.blockHashes|, c.hashes, c.pool, stateHash).value.tables;
    PrecommitsKeep(v, db'.tables);
    ConfigsStay(v, db'.tables);
  }

  lemma PrecommitsKeep(t: Tables, u: Tables)
    requires u == t.(precommits := u.precommits) && BlocksLinked(t) && TxsLocated(t)
    ensures BlocksLinked(u) && TxsLocated(u) && forall h :: Txs(u, h) == Txs(t, h)
  {
    forall h | 0 <= h < |u.blockHashes| ensures BlockAt(u, h) {
      assert BlockAt(t, h);
    }
    assert forall tx, h, i :: Occurs(u, tx, h, i) == Occurs(t, tx, h, i);
  }

  /** Along every run the chain stays valid and only grows: each commit adds one block, which
      holds the transactions of that commit, and no later commit changes it.  The data of the
      services after a commit are what its transactions make of those before, and the block
      holds their hash. */
  lemma {:induction false} RunIsValid(run: seq<Database>, commits: seq<Batch>, stateHash: StateHash)
    requires IsRun(run, commits, stateHash) && Valid(run[0].tables)
    ensures Valid(run[|commits|].tables) && Extends(run[0].tables, run[|commits|].tables)
    ensures |run[|commits|].tables.blockHashes| == |run[0].tables.blockHashes| + |commits|
    ensures forall i | 0 <= i < |commits| ::
              Txs(run[|commits|].tables, |run[0].tables.blockHashes| + i) == commits[i].hashes
    ensures forall i | 0 <= i < |commits| ::
              Follows(run[i], commits[i], stateHash,
                      run[|commits|].tables.blockHashes[|run[0].tables.blockHashes| + i], run[i + 1].services)
    decreases |commits|
  {
    hide Valid, NextBlock, CommitStep, Follows;
    if commits == [] {
    } else {
      var n := |commits| - 1;
      RunIsValid(run[..n + 1], commits[..n], stateHash);
      CommitStepKeeps(run[n], commits[n], stateHash, run[n + 1]);
    }
  }

  // ----- The operations -----

  /** The tables before the genesis block, perhaps with its configuration already in them. */
  ghost predicate Unborn(t: Tables) {
    BlocksLinked(t) && TxsLocated(t) && t.blockHashes == [] && Txs(t, 0) == [] && ConfigsLinked(t)
  }

  class Blockchain {
    var db: Tables
    var services: F.Data
    const stateHash: StateHash

    constructor (stateHash: StateHash)
      ensures Unborn(db) && db.refs == [] && services == map[] && this.stateHash == stateHash
    {
      db, services, this.stateHash := EMPTY, map[], stateHash;
    }

    ghost function Contents(): Database
      reads this
    {
      Database(db, services)
    }

    /** Runs a transaction inside a checkpoint; an outcome that is not `Done` is the unwinding. */
    static method Execute(ops: seq<Op>, t: Tables, fork: F.Fork) returns (outcome: Outcome)
      requires fork.Valid() && fork.Did([])
      modifies fork
      ensures outcome == Run(ops, t)
      ensures fork.Valid() && fork.base == old(fork.base) && fork.Did(Written(ops, t))
    {
      hide Do, F.Applied, F.Logged, F.LogsAll, F.Undo, F.Forgotten, F.AppliedAll;
      var u := t;
      ghost var done := [];
      assert ops[0..] == ops && done + Written(ops, t) == Written(ops, t);
      for i := 0 to |ops|
        invariant fork.Valid() && fork.base == old(fork.base) && fork.Did(done)
        invariant Run(ops[i..], u) == Run(ops, t) && done + Written(ops[i..], u) == Written(ops, t)
      {
        assert ops[i..][0] == ops[i] && ops[i..][1..] == ops[i + 1..];
        var step := Do(ops[i], u);
        if !step.Done? {
          assert done + [] == done;
          return step;
        }
        if ops[i].Write? {
          fork.PerformLogged(ops[i].write, done);
          done := done + [ops[i].write];
        }
        u := step.tables;
      }
      assert done + [] == done;
      outcome := Done(u);
    }

    /** One turn of the loop of `create_patch`; `None` is the panic that is passed on. */
    static method StepFork(tables: Tables, fork: F.Fork, height: Height, index: nat, hash: Hash, tx: Transaction)
      returns (r: Option<Tables>)
      requires fork.Valid() && !fork.logged
      modifies fork
      ensures var step := StepTx(fork.snapshot, Fork(tables, old(fork.patch)), height, index, hash, tx);
              && r.Some? == step.Some?
              && (r.Some? ==> fork.Valid() && !fork.logged && step.value == Fork(r.value, fork.patch))
    {
      var ops := tx.program(tables, F.Merged(fork.snapshot, fork.patch));
      var _ := fork.Checkpoint();
      assert fork.Did([]);
      var outcome := Execute(ops, tables, fork);
      match outcome {
        case Done(t) =>
          var _ := fork.Commit();
          r := Some(Record(t, height, index, hash, tx.raw));
        case StorageError =>
          r := None;
        case Panicked =>
          var _ := fork.Rollback();
          r := Some(Record(tables, height, index, hash, tx.raw));
      }
    }

    /** `create_patch`: the database is not touched; the patch holds the next block and what the
        transactions make of the data. */
    method CreatePatch(proposer: nat, height: Height, hashes: seq<Hash>, pool: map<Hash, Transaction>)
      returns (r: Option<(Hash, Fork)>)
      requires forall h | h in hashes :: h in pool
      ensures var next := NextBlock(Contents(), proposer, height, hashes, pool, stateHash);
              && r.Some? == next.Some?
              && (r.Some? ==> r.value.1 == next.value && next.value.tables.blockHashes == db.blockHashes + [r.value.0])
      ensures var played := PlayAll(services, Contents(), height, 0, hashes, pool);
              && r.Some? == played.Some?
              && (r.Some? ==>
                    && r.value.0.OfBlock?
                    && Builds(Contents(), played.value, proposer, height, |hashes|, stateHash, r.value.0.block,
                              r.value.1))
    {
      hide PlayAll, Builds;
      NextBlockBuilds(Contents(), proposer, height, hashes, pool, stateHash);
      var fork := new F.Fork(services);
      var tables := db;
      var lastHash := if db.blockHashes == [] then Zero else db.blockHashes[|db.blockHashes| - 1];
      ghost var goal := ExecuteAll(services, Fork(db, map[]), height, 0, hashes, pool);
      for index := 0 to |hashes|
        invariant fork.Valid() && !fork.logged && fresh(fork) && tables.blockHashes == db.blockHashes
        invariant ExecuteAll(services, Fork(tables, fork.patch), height, index, hashes[index..], pool) == goal
      {
        var hash := hashes[index];
        assert hashes[index..][1..] == hashes[index + 1..];
        StepChain(services, Fork(tables, fork.patch), height, index, hash, pool[hash]);
        var step := StepFork(tables, fork, height, index, hash, pool[hash]);
        if step.None? {
          return None;
        }
        tables := step.value;
      }
      var state := stateHash(tables, F.Merged(services, fork.patch));
      var b := MakeBlock(tables, proposer, height, |hashes|, lastHash, state);
      r := Some((OfBlock(b), Fork(AddBlock(tables, b), fork.patch)));
    }

    static lemma StepChain(data: F.Data, s: Fork, height: Height, index: nat, hash: Hash, tx: Transaction)
      ensures var step := StepTx(data, s, height, index, hash, tx);
              step.Some? ==> step.value.tables.blockHashes == s.tables.blockHashes
    {
      var ops := tx.program(s.tables, F.Merged(data, s.patch));
      if Run(ops, s.tables).Done? {
        RunKeeps(ops, s.tables);
      }
    }

    /** `commit`: the patch is merged with the precommits for its block. */
    method Commit(patch: Fork, hash: Hash, precommits: seq<nat>)
      requires Valid(patch.tables) && Extends(db, patch.tables)
      modifies this
      ensures db == patch.tables.(precommits := db.precommits)
      ensures PrecommitsOf(db, hash) == PrecommitsOf(patch.tables, hash) + precommits
      ensures forall other | other != hash :: PrecommitsOf(db, other) == PrecommitsOf(patch.tables, other)
      ensures db == WithPrecommits(patch.tables, hash, precommits)
      ensures services == F.Merged(old(services), patch.patch)
      ensures Valid(db) && Extends(old(db), db)
    {
      hide TxsLocated, BlocksLinked, ConfigsLinked;
      var tables := patch.tables;
      for i := 0 to |precommits|
        invariant tables == WithPrecommits(patch.tables, hash, precommits[..i])
        invariant db == old(db) && services == old(services)
      {
        assert precommits[..i + 1] == precommits[..i] + [precommits[i]];
        OneMorePrecommit(patch.tables, hash, precommits[..i], precommits[i]);
        tables := tables.(precommits := tables.precommits[hash := PrecommitsOf(tables, hash) + [precommits[i]]]);
      }
      assert precommits[..|precommits|] == precommits;
      db, services := tables, F.Merged(services, patch.patch);
      PrecommitsKeep(patch.tables, db);
      ConfigsStay(patch.tables, db);
    }

    /** `create_patch` and `commit` one after the other, as a node does it.  A key reads what the last
        write to it says, among the writes of the transactions that end well. */
    method CommitNext(proposer: nat, hashes: seq<Hash>, pool: map<Hash, Transaction>, precommits: seq<nat>)
      returns (ok: bool)
      requires Valid(db) && forall h | h in hashes :: h in pool
      modifies this
      ensures ok == PlayAll(old(services), old(Contents()), old(|db.blockHashes|), 0, hashes, pool).Some?
      ensures !ok ==> unchanged(this)
      ensures ok ==>
                && Valid(db) && Extends(old(db), db) && |db.blockHashes| == old(|db.blockHashes|) + 1
                && Txs(db, old(|db.blockHashes|)) == hashes
                && var c := Batch(proposer, hashes, pool, precommits);
                   Follows(old(Contents()), c, stateHash, db.blockHashes[old(|db.blockHashes|)], services)
      ensures ok && PanicsHarmless(old(services), old(Contents()), old(|db.blockHashes|), 0, hashes, pool) ==>
                var ws := WritesDone(old(services), old(Contents()), old(|db.blockHashes|), 0, hashes, pool);
                forall k, i | 0 <= i < |ws| && LastTouch(old(services), ws, k, i) ::
                  F.Lookup(services, k) == if ws[i].Store? then Some(ws[i].value) else None
    {
      hide PlayAll, WritesDone, PanicsHarmless, NextBlock, BlocksLinked, TxsLocated, F.Merged, F.ShownAll;
      ghost var was, height := Contents(), |db.blockHashes|;
      var r := CreatePatch(proposer, |db.blockHashes|, hashes, pool);
      if r.None? {
        return false;
      }
      NextBlockKeeps(was, proposer, hashes, pool, stateHash);
      var (hash, patch) := r.value;
      Commit(patch, hash, precommits);
      if PanicsHarmless(was.services, was, height, 0, hashes, pool) {
        PlayedWrites(was.services, was, height, 0, hashes, pool);
        ghost var ws := WritesDone(was.services, was, height, 0, hashes, pool);
        forall k, i | 0 <= i < |ws| && LastTouch(was.services, ws, k, i)
          ensures F.Lookup(services, k) == if ws[i].Store? then Some(ws[i].value) else None
        {
          F.LastWriteIsRead(was.services, was.services, ws, i, k);
        }
      }
      ok := true;
    }

    /** The first half of `create_genesis_block`: what the services write and the configuration are
        merged.  `Some(true)` is an early return because there is a block, `None` a panic. */
    method MergeConfiguration(body: nat, initial: seq<F.Write>) returns (r: Option<bool>)
      requires Valid(db) || Unborn(db)
      modifies this
      ensures r == if old(db.blockHashes) != [] then Some(true) else if old(db.refs) == [] then Some(false) else None
      ensures r != Some(false) ==> db == old(db) && services == old(services)
      ensures r == Some(false) ==>
                && Unborn(db) && |db.refs| == 1 && InForce(db, Config(Zero, 0, body), 1)
                && services == F.ShownAll(old(services), old(services), initial)
    {
      F.MergedNone(services);
      F.AppliedShows(services, map[], initial);
      var cfg := Config(Zero, 0, body);
      var fork := new F.Fork(services);
      for i := 0 to |initial|
        invariant fork.Valid() && !fork.logged && fresh(fork)
        invariant fork.patch == F.AppliedAll(services, map[], initial[..i])
        invariant db == old(db) && services == old(services)
      {
        assert initial[..i + 1] == initial[..i] + [initial[i]];
        F.AppliedMore(services, map[], initial[..i], initial[i]);
        fork.Perform(initial[i]);
      }
      assert initial[..|initial|] == initial;
      if db.blockHashes != [] {
        return Some(true);
      }
      var configured := CommitConfiguration(db, cfg);
      if configured.None? {
        return None;
      }
      SameChainKeeps(db, configured.value);
      db, services := configured.value, F.Merged(services, fork.patch);
      assert db.refs[0].hash == OfConfig(cfg);
      r := Some(false);
    }

    /** `create_genesis_block`: nothing is done when there is one.  The configuration and the
        block are merged one after the other; when only the configuration got in, a second
        attempt panics, which is the false result. */
    method CreateGenesisBlock(body: nat, initial: seq<F.Write>) returns (ok: bool)
      requires Valid(db) || Unborn(db)
      modifies this
      ensures ok <==> old(db.blockHashes) != [] || old(db.refs) == []
      ensures old(db.blockHashes) != [] || !ok ==> db == old(db) && services == old(services)
      ensures old(db.blockHashes) == [] && ok ==>
                && Valid(db) && |db.blockHashes| == 1 && Txs(db, 0) == [] && InForce(db, Config(Zero, 0, body), 1)
                && services == F.ShownAll(old(services), old(services), initial)
    {
      var done := MergeConfiguration(body, initial);
      if done != Some(false) {
        return done.Some?;
      }
      MergeGenesisBlock(Config(Zero, 0, body));
      ok := true;
    }

    method MergeGenesisBlock(ghost cfg: Config)
      requires Unborn(db) && |db.refs| == 1 && InForce(db, cfg, 1) && cfg.actualFrom == 0
      modifies this
      ensures Valid(db) && |db.blockHashes| == 1 && Txs(db, 0) == [] && InForce(db, cfg, 1)
      ensures services == old(services)
    {
      NextBlockKeeps(Contents(), 0, [], map[], stateHash);
      var r := CreatePatch(0, 0, [], map[]);
      db, services := r.value.1.tables, F.Merged(services, r.value.1.patch);
    }
  }

  /** A node that stops between the two merges can never make its genesis block. */
  method InterruptedGenesis(stateHash: StateHash, body: nat, initial: seq<F.Write>)
    returns (chain: Blockchain, ok: bool)
    ensures !ok && chain.db.blockHashes == [] && Unborn(chain.db)
  {
    chain := new Blockchain(stateHash);
    var done := chain.MergeConfiguration(body, initial);
    ok := chain.CreateGenesisBlock(body, initial);
  }
}
