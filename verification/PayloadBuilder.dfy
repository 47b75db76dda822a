/** Built payloads and what a build promises about its result. */
module Payloads {
  import opened Wrappers
  import opened Transactions

  type Withdrawal = nat
  type AccessList = nat

  datatype Block = Block(txs: seq<Tx>, withdrawals: seq<Withdrawal>, gasUsed: nat)

  datatype Payload = Payload(hash: Hash, block: Block, fees: nat)

  datatype Outcome =
    | Better(payload: Payload, accessList: Option<AccessList>)
    | Freeze(payload: Payload, accessList: Option<AccessList>)
    | Aborted(fees: nat)
    | Cancelled

  /** A build task remembers the committed and the best payload of the moment it was spawned. */
  datatype Build = Build(base: Option<Payload>, best: Option<Payload>)

  /** Fixed data of one payload job; `timestamp` is that of the block it builds. A block hash identifies its
      block. */
  datatype Config = Config(noTxPool: bool, authorized: bool, blockOf: Hash -> Block, timestamp: nat)

  /** `p` keeps everything `base` pre-confirmed. */
  predicate Extends(base: Payload, p: Payload) {
    && base.block.txs <= p.block.txs
    && base.block.withdrawals <= p.block.withdrawals
    && base.fees <= p.fees
  }

  predicate WellFormed(cfg: Config, p: Payload) {
    p.block == cfg.blockOf(p.hash) && DistinctHashes(p.block.txs)
  }

  /** `p` is well formed, keeps the base, and earns the base's fees unless it adds a transaction. */
  predicate Continues(cfg: Config, base: Option<Payload>, p: Payload) {
    && WellFormed(cfg, p)
    && (base.Some? ==>
          && Extends(base.value, p)
          && (p.block.txs == base.value.block.txs ==> p.fees == base.value.fees))
  }

  /** The contract between a build task and the job that spawned it. */
  predicate Honest(cfg: Config, build: Build, outcome: Outcome) {
    match outcome
    case Better(p, _) =>
      && !cfg.noTxPool
      && Continues(cfg, build.base, p)
      && (build.best.Some? ==> p.fees > build.best.value.fees)
    case Freeze(p, _) =>
      if cfg.noTxPool then Continues(cfg, build.base, p) else build.base == Some(p)
    case Aborted(fees) =>
      !cfg.noTxPool && build.best.Some? && fees <= build.best.value.fees
    case Cancelled => false
  }
}

/** `build` and `build_inner` of crates/builder/src/payload_builder.rs: continuation seeding and the
    better, freeze and abort outcomes. */
module PayloadBuilder {
  import opened Wrappers
  import opened Transactions
  import BlockFilling
  import opened Payloads

  /** `sequencer` is the result of pre-execution changes and sequencer transactions; `seal` finishes
      and hashes a block; `evmGas` recovers the pre-refund gas of a committed payload. */
  datatype Env = Env(
    ctx: BlockFilling.Ctx,
    gasLimit: nat,
    withdrawals: seq<Withdrawal>,
    sequencer: Option<Sequenced>,
    evmGas: Payload -> nat,
    seal: seq<Tx> -> Option<Sealed>,
    accessList: Option<AccessList>)

  datatype Sequenced = Sequenced(txs: seq<Tx>, info: BlockFilling.Info)

  datatype Sealed = Sealed(hash: Hash, gasUsed: nat)

  function DaBytes(txs: seq<Tx>): nat {
    if txs == [] then 0
    else
      var last := txs[|txs| - 1];
      DaBytes(txs[..|txs| - 1]) + if last.deposit then 0 else last.daSize
  }

  /** A hash identifies its block, and the signer never reproduces a transaction of the block. */
  ghost predicate Sound(cfg: Config, env: Env) {
    && (forall txs :: env.seal(txs).Some? ==>
          cfg.blockOf(env.seal(txs).value.hash) == Block(txs, env.withdrawals, env.seal(txs).value.gasUsed))
    && (forall txs, spent :: env.ctx.sign(txs, spent).Some? ==> env.ctx.sign(txs, spent).value.hash !in Hashes(txs))
    && (env.sequencer.Some? ==> DistinctHashes(env.sequencer.value.txs))
  }

  /** The base is a payload of this job. On a first build the pool does not hold sequencer transactions, or
      the EVM refuses to execute them a second time. `None` is a call without a pool. */
  ghost predicate Admissible(cfg: Config, env: Env, base: Option<Payload>, pool: Option<seq<Tx>>) {
    && (pool.Some? ==> DistinctHashes(pool.value))
    && (base.Some? ==> WellFormed(cfg, base.value) && base.value.block.withdrawals == env.withdrawals)
    && (base.None? && env.sequencer.Some? && pool.Some? ==>
          Hashes(env.sequencer.value.txs) !! Hashes(pool.value) || BlockFilling.NoReplay(env.ctx))
  }

  function Info(p: Payload): BlockFilling.Info {
    BlockFilling.Info(p.block.gasUsed, 0, DaBytes(p.block.txs), p.fees)
  }

  /** A finished pass extends the base with distinct transactions and moves the fees only by what it
      included from the pool. */
  lemma PassContinues(env: Env, txs: seq<Tx>, prev: set<Hash>, info: BlockFilling.Info, limit: nat, bytes: nat, pool: seq<Tx>)
    requires DistinctHashes(txs) && DistinctHashes(pool)
    requires Hashes(txs) <= prev || Hashes(txs) !! Hashes(pool) || BlockFilling.NoReplay(env.ctx)
    requires forall b, spent :: env.ctx.sign(b, spent).Some? ==> env.ctx.sign(b, spent).value.hash !in Hashes(b)
    ensures var out := BlockFilling.Finish(env.ctx, txs, BlockFilling.Filled(env.ctx, txs, prev, info, limit, bytes, pool));
            out.Done? ==> txs <= out.txs && DistinctHashes(out.txs) && info.fees <= out.info.fees
                          && (out.txs == txs ==> out.info.fees == info.fees)
  {
    var fill := BlockFilling.Filled(env.ctx, txs, prev, info, limit, bytes, pool);
    var out := BlockFilling.Finish(env.ctx, txs, fill);
    if out.Done? {
      var added := BlockFilling.Txs(fill.included);
      BlockFilling.SpendCarriesNullifiers(env.ctx, txs, prev, info, limit, bytes, pool);
      BlockFilling.FilledIsFresh(env.ctx, txs, prev, info, limit, bytes, pool);
      BlockFilling.NothingIncludedNoFees(env.ctx.baseFee, fill.included);
      forall h | h in Hashes(added) ensures h in Hashes(pool) {
        var t :| t in added && t.hash == h;
      }
      if BlockFilling.NoReplay(env.ctx) {
        BlockFilling.NoReplayIsFresh(env.ctx, BlockFilling.VerifiedGasLimit(env.ctx, limit), txs, prev,
                                     BlockFilling.Start(info, limit, bytes), pool);
      }
      DistinctAppend(txs, added);
      if out.spend.Some? {
        assert Hashes([out.spend.value]) == {out.spend.value.hash};
        DistinctAppend(txs + added, [out.spend.value]);
      }
    }
  }

  datatype Seed = Seed(txs: seq<Tx>, info: BlockFilling.Info, prev: set<Hash>, limit: nat)

  /** Where a build starts: the sequencer transactions on the first build, afterwards the committed
      payload with its fees, gas and hashes, and a gas limit without the gas it already used. */
  function SeedOf(env: Env, base: Option<Payload>): Option<Seed> {
    match base
    case None =>
      if env.sequencer.None? then None
      else Some(Seed(env.sequencer.value.txs, env.sequencer.value.info, {}, env.gasLimit))
    case Some(p) =>
      var limit := if env.gasLimit < env.evmGas(p) then 0 else env.gasLimit - env.evmGas(p);
      Some(Seed(p.block.txs, Info(p), Hashes(p.block.txs), limit))
  }

  /** A continuation starts where the committed payload ended: its transactions, fees, gas and DA size, with no
      pre-refund gas of its own yet and a gas limit that the committed pre-refund gas has been taken off. */
  lemma SeedContinues(env: Env, p: Payload)
    ensures SeedOf(env, Some(p)).Some?
    ensures var seed := SeedOf(env, Some(p)).value;
            && seed.txs == p.block.txs && (forall h :: h in seed.prev <==> exists t :: t in p.block.txs && t.hash == h)
            && seed.info.fees == p.fees && seed.info.gas == p.block.gasUsed && seed.info.evmGas == 0
            && seed.info.da == DaBytes(p.block.txs)
            && (env.evmGas(p) <= env.gasLimit ==> seed.limit + env.evmGas(p) == env.gasLimit)
            && (env.gasLimit < env.evmGas(p) ==> seed.limit == 0)
  {}

  /** A first build starts from the sequencer transactions with the whole gas limit. */
  lemma SeedStarts(env: Env)
    ensures SeedOf(env, None).None? <==> env.sequencer.None?
    ensures SeedOf(env, None).Some? ==>
              var seed := SeedOf(env, None).value;
              seed.txs == env.sequencer.value.txs && seed.info == env.sequencer.value.info && seed.prev == {} && seed.limit == env.gasLimit
  {}

  function Fill(env: Env, seed: Seed, pool: seq<Tx>): BlockFilling.Outcome {
    BlockFilling.Finish(env.ctx, seed.txs,
                        BlockFilling.Filled(env.ctx, seed.txs, seed.prev, seed.info, seed.limit, TotalSize(seed.txs), pool))
  }

  /** The DA size of a block is that of its transactions, deposits aside. */
  lemma DaBytesStep(txs: seq<Tx>, tx: Tx)
    ensures DaBytes([]) == 0
    ensures tx.deposit ==> DaBytes(txs + [tx]) == DaBytes(txs)
    ensures !tx.deposit ==> DaBytes(txs + [tx]) == DaBytes(txs) + tx.daSize
  {
    assert (txs + [tx])[..|txs|] == txs;
  }

  lemma {:induction false} DaBytesAppend(a: seq<Tx>, b: seq<Tx>)
    ensures DaBytes(a + b) == DaBytes(a) + DaBytes(b)
  {
    if b == [] {
      assert a + b == a;
    } else {
      assert (a + b)[..|a + b| - 1] == a + b[..|b| - 1];
      DaBytesAppend(a, b[..|b| - 1]);
    }
  }

  lemma {:induction false} DaUsedIsBytes(included: seq<BlockFilling.Included>)
    requires BlockFilling.NoneBlobOrDeposit(included)
    ensures BlockFilling.DaUsed(included) == DaBytes(BlockFilling.Txs(included))
  {
    if included != [] {
      var before := included[..|included| - 1];
      assert BlockFilling.Txs(included)[..|before|] == BlockFilling.Txs(before);
      DaUsedIsBytes(before);
    }
  }

  /** The DA total a pass ends with is the DA size of the block it built, so the next continuation, which
      computes it anew from the committed transactions, carries on with the same total. */
  lemma DaCarriesOver(env: Env, seed: Seed, pool: seq<Tx>)
    requires seed.info.da == DaBytes(seed.txs)
    ensures var out := Fill(env, seed, pool);
            out.Done? ==> out.info.da == DaBytes(out.txs)
  {
    var ctx, bytes := env.ctx, TotalSize(seed.txs);
    var fill := BlockFilling.Filled(ctx, seed.txs, seed.prev, seed.info, seed.limit, bytes, pool);
    BlockFilling.FilledIsAccounted(ctx, seed.txs, seed.prev, seed.info, seed.limit, bytes, pool);
    BlockFilling.PassSkipsBlobsAndDeposits(ctx, BlockFilling.VerifiedGasLimit(ctx, seed.limit), seed.txs, seed.prev,
                                           BlockFilling.Start(seed.info, seed.limit, bytes), pool);
    DaUsedIsBytes(fill.included);
    DaBytesAppend(seed.txs, BlockFilling.Txs(fill.included));
    var txs, out := seed.txs + BlockFilling.Txs(fill.included), Fill(env, seed, pool);
    if out.Done? && out.spend.Some? {
      DaBytesStep(txs, out.spend.value);
    }
  }

  lemma {:induction false} TotalSizeAppend(a: seq<Tx>, b: seq<Tx>)
    ensures TotalSize(a + b) == TotalSize(a) + TotalSize(b)
  {
    if b == [] {
      assert a + b == a;
    } else {
      assert (a + b)[..|a + b| - 1] == a + b[..|b| - 1];
      TotalSizeAppend(a, b[..|b| - 1]);
    }
  }

  /** The block without the builder's own transaction respects the byte limit if its base does. */
  lemma BlockFitsByteLimit(env: Env, seed: Seed, pool: seq<Tx>)
    ensures var out := Fill(env, seed, pool);
            out.Done? && env.ctx.sizeLimit.Some? && TotalSize(seed.txs) <= env.ctx.sizeLimit.value ==>
              TotalSize(seed.txs + BlockFilling.Txs(out.fill.included)) <= env.ctx.sizeLimit.value
  {
    BlockFilling.FilledIsAccounted(env.ctx, seed.txs, seed.prev, seed.info, seed.limit, TotalSize(seed.txs), pool);
    var fill := BlockFilling.Filled(env.ctx, seed.txs, seed.prev, seed.info, seed.limit, TotalSize(seed.txs), pool);
    TotalSizeAppend(seed.txs, BlockFilling.Txs(fill.included));
  }

  function Seal(env: Env, txs: seq<Tx>, fees: nat): Option<Payload> {
    match env.seal(txs)
    case None => None
    case Some(sealed) => Some(Payload(sealed.hash, Block(txs, env.withdrawals, sealed.gasUsed), fees))
  }

  function Sealing(cfg: Config, env: Env, txs: seq<Tx>, fees: nat): Option<Outcome> {
    match Seal(env, txs, fees)
    case None => None
    case Some(p) => Some(if cfg.noTxPool then Freeze(p, env.accessList) else Better(p, env.accessList))
  }

  /** The outcome of a build task; `None` is a failed build. */
  function Built(cfg: Config, env: Env, build: Build, pool: Option<seq<Tx>>): Option<Outcome> {
    match SeedOf(env, build.base)
    case None => None
    case Some(seed) =>
      if cfg.noTxPool || pool.None? then Sealing(cfg, env, seed.txs, seed.info.fees)
      else
        match Fill(env, seed, pool.value)
        case Error => None
        case Stopped => if build.base.None? then None else Some(Freeze(build.base.value, None))
        case Done(info, txs, _, _) =>
          if build.best.Some? && info.fees <= build.best.value.fees then Some(Aborted(info.fees))
          else Sealing(cfg, env, txs, info.fees)
  }

  /** Every outcome of a build that was given the pool, as build tasks are, honours the contract the payload
      job relies on. A build without the pool still continues its base, but need not be better. */
  lemma BuildIsHonest(cfg: Config, env: Env, build: Build, pool: Option<seq<Tx>>)
    requires Sound(cfg, env) && Admissible(cfg, env, build.base, pool)
    ensures var outcome := Built(cfg, env, build, pool);
            outcome.Some? ==>
              if pool.Some? || cfg.noTxPool then Honest(cfg, build, outcome.value)
              else outcome.value.Better? && Continues(cfg, build.base, outcome.value.payload)
  {
    var seed := SeedOf(env, build.base);
    if seed.Some? && pool.Some? {
      PassContinues(env, seed.value.txs, seed.value.prev, seed.value.info, seed.value.limit, TotalSize(seed.value.txs), pool.value);
    }
  }

  /** A finished pass with more fees than the best payload becomes a better payload once the block is sealed: its
      transactions, the job's withdrawals, and its fees. One without more fees is aborted. A cancelled pass
      freezes the committed payload, or fails when there is none. */
  lemma PassIsBuilt(cfg: Config, env: Env, build: Build, pool: seq<Tx>)
    requires !cfg.noTxPool && SeedOf(env, build.base).Some?
    ensures var out := Fill(env, SeedOf(env, build.base).value, pool);
            var outcome := Built(cfg, env, build, Some(pool));
            if out.Error? then outcome == None
            else if out.Stopped? then outcome == if build.base.Some? then Some(Freeze(build.base.value, None)) else None
            else
              if build.best.Some? && out.info.fees <= build.best.value.fees then outcome == Some(Aborted(out.info.fees))
              else if env.seal(out.txs).None? then outcome == None
              else
                var sealed := env.seal(out.txs).value;
                outcome == Some(Better(Payload(sealed.hash, Block(out.txs, env.withdrawals, sealed.gasUsed), out.info.fees), env.accessList))
  {}

  /** Without the pool a payload holds exactly what the build started from. */
  lemma NoPoolBuildsSeed(cfg: Config, env: Env, build: Build, pool: Option<seq<Tx>>)
    requires cfg.noTxPool && SeedOf(env, build.base).Some?
    ensures var seed := SeedOf(env, build.base).value;
            Built(cfg, env, build, pool) ==
              if env.seal(seed.txs).None? then None
              else
                var sealed := env.seal(seed.txs).value;
                Some(Freeze(Payload(sealed.hash, Block(seed.txs, env.withdrawals, sealed.gasUsed), seed.info.fees), env.accessList))
  {}

  /** In pool mode only a cancelled build freezes. */
  lemma UncancelledNeverFreezes(cfg: Config, env: Env, build: Build, pool: Option<seq<Tx>>)
    requires !cfg.noTxPool && forall n :: !env.ctx.cancelled(n)
    ensures var outcome := Built(cfg, env, build, pool);
            outcome.Some? ==> !outcome.value.Freeze?
  {
    var seed := SeedOf(env, build.base);
    if seed.Some? && pool.Some? {
      var s := seed.value;
      BlockFilling.NeverCancelled(env.ctx, BlockFilling.VerifiedGasLimit(env.ctx, s.limit), s.txs, s.prev,
                                  BlockFilling.Start(s.info, s.limit, TotalSize(s.txs)), pool.value);
    }
  }

  method BuildInner(cfg: Config, env: Env, build: Build, pool: Option<seq<Tx>>) returns (outcome: Option<Outcome>)
    ensures outcome == Built(cfg, env, build, pool)
  {
    var txs, info, prev, limit: nat;
    if build.base.None? {
      if env.sequencer.None? { return None; }
      txs, info := env.sequencer.value.txs, env.sequencer.value.info;
      prev, limit := {}, env.gasLimit;
    } else {
      var base := build.base.value;
      txs, info := base.block.txs, Info(base);
      prev := Hashes(txs);
      limit := if env.gasLimit < env.evmGas(base) then 0 else env.gasLimit - env.evmGas(base);
    }
    if pool.Some? && !cfg.noTxPool {
      var out := BlockFilling.ExecuteBestTransactions(env.ctx, txs, prev, info, limit, TotalSize(txs), pool.value);
      match out {
        case Error => return None;
        case Stopped =>
          // cancelled: the committed payload is all there is
          if build.base.None? { return None; }
          return Some(Freeze(build.base.value, None));
        case Done(info', txs', _, _) =>
          txs, info := txs', info';
      }
      if build.best.Some? && info.fees <= build.best.value.fees {
        return Some(Aborted(info.fees));
      }
    }
    var sealed := env.seal(txs);
    if sealed.None? { return None; }
    var payload := Payload(sealed.value.hash, Block(txs, env.withdrawals, sealed.value.gasUsed), info.fees);
    outcome := Some(if cfg.noTxPool then Freeze(payload, env.accessList) else Better(payload, env.accessList));
  }
}
