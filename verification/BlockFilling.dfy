/** Pool transactions as the payload builder sees them. */
module Transactions {
  import opened Wrappers

  type Hash = nat
  type Address = nat

  /** `pbh` holds the nullifier hashes of a priority (PBH) transaction; `spends` is the argument of
      the builder's own spend-nullifiers call and is empty for pool transactions. */
  datatype Tx = Tx(hash: Hash, sender: Address, nonce: nat, gasLimit: nat, size: nat, daSize: nat,
                   maxFee: nat, maxPriorityFee: nat, blob: bool, deposit: bool,
                   pbh: Option<seq<Hash>>, spends: set<Hash>)

  function Hashes(txs: seq<Tx>): set<Hash> {
    set t | t in txs :: t.hash
  }

  predicate DistinctHashes(txs: seq<Tx>) {
    forall i, j :: 0 <= i < j < |txs| ==> txs[i].hash != txs[j].hash
  }

  function TotalSize(txs: seq<Tx>): nat {
    if txs == [] then 0 else TotalSize(txs[..|txs| - 1]) + txs[|txs| - 1].size
  }

  /** The effective priority fee per gas; the source unwraps it after a successful execution, which
      implies that `maxFee` covers the base fee. */
  function Tip(tx: Tx, baseFee: nat): nat {
    if tx.maxFee < baseFee then 0
    else if tx.maxFee - baseFee < tx.maxPriorityFee then tx.maxFee - baseFee
    else tx.maxPriorityFee
  }

  lemma DistinctAppend(a: seq<Tx>, b: seq<Tx>)
    requires DistinctHashes(a) && DistinctHashes(b) && Hashes(a) !! Hashes(b)
    ensures DistinctHashes(a + b)
  {
    forall i, j | 0 <= i < j < |a + b|
      ensures (a + b)[i].hash != (a + b)[j].hash
    {
      if i < |a| <= j {
        assert a[i].hash in Hashes(a) && b[j - |a|].hash in Hashes(b);
      }
    }
  }
}

/** The block-filling loop of crates/builder/src/execution_context.rs: one pass over the pool with
    every rejection branch, the running totals, the nullifier set and the shrinking gas limit. */
module BlockFilling {
  import opened Wrappers
  import opened Transactions

  const COLD_SSTORE_GAS: nat := 20_000
  const FIXED_GAS: nat := 100_000
  const TWO_64: nat := 0x1_0000_0000_0000_0000

  function DynGasLimit(len: nat): nat {
    FIXED_GAS + len * COLD_SSTORE_GAS
  }

  /** `-=` on a u64 in a release build. */
  function Sub64(x: nat, y: nat): nat {
    (x - y) % TWO_64
  }

  datatype Info = Info(gas: nat, evmGas: nat, da: nat, fees: nat)

  datatype ExecOutcome =
    | Executed(gasUsed: nat, evmGasUsed: nat)
    | NonceTooLow
    | Invalid
    | FatalError

  datatype Signed = Signed(hash: Hash, size: nat, daSize: nat)

  /** The builder's environment. The EVM is a function of the transactions already in the block;
      cancellation is a function of how many pool entries are left. `sign` gives the hash and
      sizes of the signed spend-nullifiers transaction, or `None` when it cannot be built. */
  datatype Ctx = Ctx(
    baseFee: nat,
    capacity: nat,
    sizeLimit: Option<nat>,
    overLimits: (Info, nat, Tx) -> bool,
    evm: (seq<Tx>, Tx) -> ExecOutcome,
    cancelled: nat -> bool,
    sign: (seq<Tx>, set<Hash>) -> Option<Signed>,
    builder: Address,
    builderNonce: nat)

  datatype Included = Included(tx: Tx, gasUsed: nat, evmGasUsed: nat)

  datatype Halt = Running | Cancelled | Failed

  /** The mutable state of the loop. `limit` is `effective_gas_limit`, `rejected` is `invalid_txs`
      and `marked` the senders the pool iterator was told to drop. */
  datatype Fill = Fill(info: Info, limit: nat, bytes: nat, spent: set<Hash>, included: seq<Included>,
                       rejected: seq<Hash>, marked: set<Address>, halt: Halt)

  function Txs(included: seq<Included>): (r: seq<Tx>)
    ensures |r| == |included|
    ensures forall i :: 0 <= i < |r| ==> r[i] == included[i].tx
  {
    seq(|included|, i requires 0 <= i < |included| => included[i].tx)
  }

  function Commit(baseFee: nat, info: Info, tx: Tx, daSize: nat, gasUsed: nat, evmGasUsed: nat): Info {
    Info(info.gas + gasUsed, info.evmGas + evmGasUsed, info.da + daSize, info.fees + Tip(tx, baseFee) * gasUsed)
  }

  /** Inserts nullifiers one by one and stops at the first one already present; the ones inserted
      before the duplicate stay in the set. */
  function InsertAll(spent: set<Hash>, payloads: seq<Hash>): (r: (set<Hash>, bool))
    ensures spent <= r.0
    decreases |payloads|
  {
    if payloads == [] then (spent, true)
    else if payloads[0] in spent then (spent, false)
    else InsertAll(spent + {payloads[0]}, payloads[1..])
  }

  /** The insertion succeeds exactly when the hashes are pairwise distinct and all new, and then the set
      has grown by exactly them; otherwise nothing but hashes from the list has been added. */
  lemma {:induction false} InsertAllMeans(spent: set<Hash>, payloads: seq<Hash>)
    ensures var r := InsertAll(spent, payloads);
            && (r.1 <==> Distinct(payloads) && forall h :: h in payloads ==> h !in spent)
            && (r.1 ==> r.0 == spent + SetOf(payloads) && |r.0| == |spent| + |payloads|)
            && forall h :: h in r.0 ==> h in spent || h in payloads
    decreases |payloads|
  {
    if payloads != [] {
      DistinctCons(payloads);
      if payloads[0] !in spent { InsertAllMeans(spent + {payloads[0]}, payloads[1..]); }
    }
  }

  function SetOf(s: seq<Hash>): set<Hash> {
    set h | h in s
  }

  predicate Distinct(s: seq<Hash>) {
    forall i, j :: 0 <= i < j < |s| ==> s[i] != s[j]
  }

  lemma DistinctCons(s: seq<Hash>)
    requires s != []
    ensures Distinct(s) <==> Distinct(s[1..]) && s[0] !in s[1..]
    ensures forall h :: h in s <==> h == s[0] || h in s[1..]
  {}

  /** The gas reserved for the spend transaction once a priority transaction has executed. */
  function Reserve(limit: nat, spent: set<Hash>, tx: Tx): nat {
    if tx.pbh.None? then limit
    else
      var fixed := if |spent| == |tx.pbh.value| then Sub64(limit, FIXED_GAS) else limit;
      Sub64(fixed, COLD_SSTORE_GAS * |tx.pbh.value|)
  }

  function Mark(st: Fill, tx: Tx): Fill {
    st.(marked := st.marked + {tx.sender})
  }

  function Execute(ctx: Ctx, base: seq<Tx>, st: Fill, tx: Tx): Fill {
    match ctx.evm(base + Txs(st.included), tx)
    case Executed(gasUsed, evmGasUsed) =>
      st.(info := Commit(ctx.baseFee, st.info, tx, tx.daSize, gasUsed, evmGasUsed),
          limit := Reserve(st.limit, st.spent, tx),
          bytes := st.bytes + tx.size,
          included := st.included + [Included(tx, gasUsed, evmGasUsed)])
    case NonceTooLow => st
    case Invalid => Mark(st, tx)
    case FatalError => st.(halt := Failed)
  }

  /** One iteration of the loop for a transaction the pool yielded, with `left` entries behind it. */
  function Consider(ctx: Ctx, verified: nat, base: seq<Tx>, st: Fill, left: nat, tx: Tx): Fill {
    if ctx.sizeLimit.Some? && st.bytes + tx.size > ctx.sizeLimit.value then Mark(st, tx)
    else if ctx.overLimits(st.info, st.limit, tx) then Mark(st, tx)
    else if tx.blob || tx.deposit then Mark(st, tx)
    else if ctx.cancelled(left) then st.(halt := Cancelled)
    else if tx.pbh.None? then Execute(ctx, base, st, tx)
    else if st.info.gas + tx.gasLimit > verified then Mark(st, tx)
    else
      var (spent, unseen) := InsertAll(st.spent, tx.pbh.value);
      if unseen then Execute(ctx, base, st.(spent := spent), tx)
      else Mark(st, tx).(spent := spent, rejected := st.rejected + [tx.hash])
  }

  /** The guard iterator skips already committed hashes and senders that were marked invalid. */
  predicate Skipped(prev: set<Hash>, st: Fill, tx: Tx) {
    tx.sender in st.marked || tx.hash in prev
  }

  function Step(ctx: Ctx, verified: nat, base: seq<Tx>, prev: set<Hash>, st: Fill, pool: seq<Tx>): Fill
    requires pool != []
  {
    if Skipped(prev, st, pool[0]) then st else Consider(ctx, verified, base, st, |pool| - 1, pool[0])
  }

  function Run(ctx: Ctx, verified: nat, base: seq<Tx>, prev: set<Hash>, st: Fill, pool: seq<Tx>): Fill
    decreases |pool|
  {
    if pool == [] || st.halt != Running then st
    else Run(ctx, verified, base, prev, Step(ctx, verified, base, prev, st, pool), pool[1..])
  }

  function VerifiedGasLimit(ctx: Ctx, limit: nat): nat {
    (ctx.capacity * limit) % TWO_64 / 100
  }

  function Start(info: Info, limit: nat, bytes: nat): Fill {
    Fill(info, limit, bytes, {}, [], [], {}, Running)
  }

  function Filled(ctx: Ctx, base: seq<Tx>, prev: set<Hash>, info: Info, limit: nat, bytes: nat, pool: seq<Tx>): Fill {
    Run(ctx, VerifiedGasLimit(ctx, limit), base, prev, Start(info, limit, bytes), pool)
  }

  /** The builder's own transaction: base fee as both fee caps, so its tip is zero. */
  function SpendTx(ctx: Ctx, signed: Signed, spent: set<Hash>): Tx {
    Tx(signed.hash, ctx.builder, ctx.builderNonce, DynGasLimit(|spent|), signed.size, signed.daSize, ctx.baseFee, ctx.baseFee,
       false, false, None, spent)
  }

  /** What `execute_best_transactions` leaves behind when it neither fails nor is cancelled: the final
      execution info and the block's transactions. */
  datatype Outcome =
    | Stopped
    | Error
    | Done(info: Info, txs: seq<Tx>, fill: Fill, spend: Option<Tx>)

  function Finish(ctx: Ctx, base: seq<Tx>, fill: Fill): Outcome {
    var txs := base + Txs(fill.included);
    if fill.halt == Cancelled then Stopped
    else if fill.halt == Failed then Error
    else if fill.spent == {} then Done(fill.info, txs, fill, None)
    else match ctx.sign(txs, fill.spent)
         case None => Error
         case Some(signed) =>
           var tx := SpendTx(ctx, signed, fill.spent);
           match ctx.evm(txs, tx)
           case Executed(gasUsed, evmGasUsed) =>
             Done(Commit(ctx.baseFee, fill.info, tx, tx.daSize, gasUsed, evmGasUsed), txs + [tx], fill, Some(tx))
           case _ => Done(fill.info, txs, fill, None)
  }

  // ---------------------------------------------------------------------------------------------
  // Totals, byte limit, verified budget
  // ---------------------------------------------------------------------------------------------

  function EvmGasUsed(included: seq<Included>): nat {
    if included == [] then 0 else EvmGasUsed(included[..|included| - 1]) + included[|included| - 1].evmGasUsed
  }

  function DaUsed(included: seq<Included>): nat {
    if included == [] then 0 else DaUsed(included[..|included| - 1]) + included[|included| - 1].tx.daSize
  }

  /** What a transaction pays per unit of gas: the smaller of its priority fee and what its fee cap leaves
      above the base fee. */
  function PaidPerGas(tx: Tx, baseFee: nat): nat {
    var left := if tx.maxFee < baseFee then 0 else tx.maxFee - baseFee;
    if tx.maxPriorityFee <= left then tx.maxPriorityFee else left
  }

  function FeesPaid(baseFee: nat, included: seq<Included>): nat {
    if included == [] then 0
    else
      var last := included[|included| - 1];
      FeesPaid(baseFee, included[..|included| - 1]) + last.gasUsed * PaidPerGas(last.tx, baseFee)
  }

  /** All nullifier hashes of the included transactions, in block order. */
  function Nullifiers(included: seq<Included>): seq<Hash> {
    if included == [] then []
    else
      var last := included[|included| - 1].tx;
      Nullifiers(included[..|included| - 1]) + if last.pbh.Some? then last.pbh.value else []
  }

  function GasUsed(included: seq<Included>): nat {
    if included == [] then 0 else GasUsed(included[..|included| - 1]) + included[|included| - 1].gasUsed
  }

  predicate Accounted(ctx: Ctx, start: Fill, st: Fill) {
    && st.info.gas == start.info.gas + GasUsed(st.included)
    && st.info.evmGas == start.info.evmGas + EvmGasUsed(st.included)
    && st.info.da == start.info.da + DaUsed(st.included)
    && st.info.fees == start.info.fees + FeesPaid(ctx.baseFee, st.included)
    && st.bytes == start.bytes + TotalSize(Txs(st.included))
    && (ctx.sizeLimit.Some? && start.bytes <= ctx.sizeLimit.value ==> st.bytes <= ctx.sizeLimit.value)
  }

  /** Every included priority transaction that stayed within its own gas limit left the cumulative
      gas within the verified budget. */
  predicate WithinBudget(verified: nat, start: Fill, st: Fill) {
    forall k :: 0 <= k < |st.included| && st.included[k].tx.pbh.Some?
                && st.included[k].gasUsed <= st.included[k].tx.gasLimit
                ==> start.info.gas + GasUsed(st.included[..k + 1]) <= verified
  }

  predicate NoEmptyLists(included: seq<Included>) {
    forall k :: 0 <= k < |included| ==> included[k].tx.pbh != Some([])
  }

  predicate NoStrayHashes(st: Fill) {
    st.spent == SetOf(Nullifiers(st.included))
  }

  predicate NullifiersTracked(start: Fill, st: Fill) {
    && Distinct(Nullifiers(st.included))
    && (forall h :: h in Nullifiers(st.included) ==> h in st.spent)
    && (NoStrayHashes(st) && NoEmptyLists(st.included) && start.limit < TWO_64 ==>
          && |st.spent| == |Nullifiers(st.included)|
          && st.limit == Sub64(start.limit, if st.spent == {} then 0 else DynGasLimit(|st.spent|)))
  }

  predicate FillInv(ctx: Ctx, verified: nat, start: Fill, st: Fill) {
    && Accounted(ctx, start, st)
    && WithinBudget(verified, start, st)
    && NullifiersTracked(start, st)
  }

  lemma Sub64Twice(x: nat, y: nat, z: nat)
    ensures Sub64(Sub64(x, y), z) == Sub64(x, y + z)
  {
    var q := (x - y) / TWO_64;
    assert x - y == q * TWO_64 + Sub64(x, y);
    ModShift(Sub64(x, y) - z, q);
    assert x - (y + z) == (Sub64(x, y) - z) + q * TWO_64;
  }

  lemma {:induction false} ModShift(a: int, q: int)
    ensures (a + q * TWO_64) % TWO_64 == a % TWO_64
    decreases if q < 0 then -q else q
  {
    if q > 0 { ModShift(a, q - 1); } else if q < 0 { ModShift(a, q + 1); }
  }

  lemma AppendSums(baseFee: nat, included: seq<Included>, x: Included)
    ensures GasUsed(included + [x]) == GasUsed(included) + x.gasUsed
    ensures EvmGasUsed(included + [x]) == EvmGasUsed(included) + x.evmGasUsed
    ensures DaUsed(included + [x]) == DaUsed(included) + x.tx.daSize
    ensures FeesPaid(baseFee, included + [x]) == FeesPaid(baseFee, included) + x.gasUsed * PaidPerGas(x.tx, baseFee)
  {
    assert (included + [x])[..|included|] == included;
  }

  lemma CommitAdds(baseFee: nat, info: Info, x: Included)
    ensures Commit(baseFee, info, x.tx, x.tx.daSize, x.gasUsed, x.evmGasUsed)
         == Info(info.gas + x.gasUsed, info.evmGas + x.evmGasUsed, info.da + x.tx.daSize,
                 info.fees + x.gasUsed * PaidPerGas(x.tx, baseFee))
  {
    assert Tip(x.tx, baseFee) == PaidPerGas(x.tx, baseFee);
  }

  lemma AppendIncluded(included: seq<Included>, x: Included)
    ensures TotalSize(Txs(included + [x])) == TotalSize(Txs(included)) + x.tx.size
    ensures Nullifiers(included + [x]) == Nullifiers(included) + if x.tx.pbh.Some? then x.tx.pbh.value else []
  {
    assert (included + [x])[..|included|] == included;
    assert Txs(included + [x])[..|included|] == Txs(included);
  }

  lemma DistinctConcat(a: seq<Hash>, b: seq<Hash>)
    requires Distinct(a) && Distinct(b) && forall h :: h in b ==> h !in a
    ensures Distinct(a + b)
  {
    forall i, j | 0 <= i < j < |a + b| ensures (a + b)[i] != (a + b)[j] {
      if i < |a| <= j { assert b[j - |a|] in b; }
    }
  }

  lemma IncludeKeepsTotals(ctx: Ctx, start: Fill, st: Fill, x: Included, after: Fill)
    requires Accounted(ctx, start, st)
    requires ctx.sizeLimit.Some? ==> st.bytes + x.tx.size <= ctx.sizeLimit.value
    requires after.included == st.included + [x] && after.bytes == st.bytes + x.tx.size
    requires after.info == Commit(ctx.baseFee, st.info, x.tx, x.tx.daSize, x.gasUsed, x.evmGasUsed)
    ensures Accounted(ctx, start, after)
  {
    AppendIncluded(st.included, x);
    AppendSums(ctx.baseFee, st.included, x);
    CommitAdds(ctx.baseFee, st.info, x);
  }

  lemma IncludeKeepsBudget(verified: nat, start: Fill, st: Fill, x: Included, after: Fill)
    requires WithinBudget(verified, start, st) && st.info.gas == start.info.gas + GasUsed(st.included)
    requires x.tx.pbh.Some? ==> st.info.gas + x.tx.gasLimit <= verified
    requires after.included == st.included + [x]
    ensures WithinBudget(verified, start, after)
  {
    forall k | 0 <= k < |after.included| && after.included[k].tx.pbh.Some?
               && after.included[k].gasUsed <= after.included[k].tx.gasLimit
      ensures start.info.gas + GasUsed(after.included[..k + 1]) <= verified
    {
      if k < |st.included| {
        assert after.included[..k + 1] == st.included[..k + 1];
        assert after.included[k] == st.included[k];
      } else {
        assert after.included[..k + 1] == after.included;
        assert after.included[..k] == st.included;
      }
    }
  }

  /** Executing a transaction whose nullifiers have just been inserted keeps the accounting. */
  lemma ExecuteKeepsTotals(ctx: Ctx, verified: nat, base: seq<Tx>, start: Fill, st: Fill, tx: Tx)
    requires Accounted(ctx, start, st) && WithinBudget(verified, start, st)
    requires ctx.sizeLimit.Some? ==> st.bytes + tx.size <= ctx.sizeLimit.value
    requires tx.pbh.Some? ==> st.info.gas + tx.gasLimit <= verified
    ensures Accounted(ctx, start, Execute(ctx, base, st, tx))
    ensures WithinBudget(verified, start, Execute(ctx, base, st, tx))
  {
    match ctx.evm(base + Txs(st.included), tx)
    case Executed(gasUsed, evmGasUsed) =>
      var x := Included(tx, gasUsed, evmGasUsed);
      IncludeKeepsTotals(ctx, start, st, x, Execute(ctx, base, st, tx));
      IncludeKeepsBudget(verified, start, st, x, Execute(ctx, base, st, tx));
    case _ =>
  }

  /** The limit arithmetic of one included priority transaction in a clean run. */
  lemma ReserveStep(start: nat, limit: nat, spent: set<Hash>, after: set<Hash>, tx: Tx)
    requires start < TWO_64 && tx.pbh.Some? && tx.pbh.value != []
    requires |after| == |spent| + |tx.pbh.value|
    requires limit == Sub64(start, if spent == {} then 0 else DynGasLimit(|spent|))
    ensures Reserve(limit, after, tx) == Sub64(start, DynGasLimit(|after|))
  {
    var cold := COLD_SSTORE_GAS * |tx.pbh.value|;
    if spent == {} {
      Sub64Twice(start, 0, FIXED_GAS);
      Sub64Twice(start, FIXED_GAS, cold);
    } else {
      assert |spent| != 0;
      Sub64Twice(start, DynGasLimit(|spent|), cold);
    }
  }

  lemma ExecuteKeepsNullifiers(ctx: Ctx, base: seq<Tx>, start: Fill, st: Fill, spent: set<Hash>, tx: Tx)
    requires NullifiersTracked(start, st)
    requires if tx.pbh.Some? then InsertAll(st.spent, tx.pbh.value) == (spent, true) else spent == st.spent
    ensures NullifiersTracked(start, Execute(ctx, base, st.(spent := spent), tx))
  {
    var mid := st.(spent := spent);
    match ctx.evm(base + Txs(mid.included), tx)
    case Executed(gasUsed, evmGasUsed) =>
      IncludeKeepsNullifiers(ctx, start, st, spent, Included(tx, gasUsed, evmGasUsed), Execute(ctx, base, mid, tx));
    case _ =>
      StraysKeepNullifiers(start, st, Execute(ctx, base, mid, tx));
  }

  /** When nothing is included, newly inserted hashes are strays. */
  lemma StraysKeepNullifiers(start: Fill, st: Fill, after: Fill)
    requires NullifiersTracked(start, st)
    requires st.spent <= after.spent && after.included == st.included && after.limit == st.limit
    ensures NullifiersTracked(start, after)
  {}

  lemma IncludeKeepsDistinct(ctx: Ctx, st: Fill, spent: set<Hash>, x: Included, after: Fill, payloads: seq<Hash>)
    requires Distinct(Nullifiers(st.included)) && Distinct(payloads)
    requires forall h :: h in Nullifiers(st.included) ==> h in st.spent
    requires (forall h :: h in payloads ==> h !in st.spent) && spent == st.spent + SetOf(payloads)
    requires payloads == if x.tx.pbh.Some? then x.tx.pbh.value else []
    requires after.spent == spent && after.included == st.included + [x]
    ensures Nullifiers(after.included) == Nullifiers(st.included) + payloads
    ensures Distinct(Nullifiers(after.included)) && forall h :: h in Nullifiers(after.included) ==> h in after.spent
  {
    AppendIncluded(st.included, x);
    DistinctConcat(Nullifiers(st.included), payloads);
  }

  lemma IncludeKeepsNullifiers(ctx: Ctx, start: Fill, st: Fill, spent: set<Hash>, x: Included, after: Fill)
    requires NullifiersTracked(start, st)
    requires if x.tx.pbh.Some? then InsertAll(st.spent, x.tx.pbh.value) == (spent, true) else spent == st.spent
    requires after.spent == spent && after.included == st.included + [x]
    requires after.limit == Reserve(st.limit, spent, x.tx)
    ensures NullifiersTracked(start, after)
  {
    var payloads := if x.tx.pbh.Some? then x.tx.pbh.value else [];
    InsertAllMeans(st.spent, payloads);
    IncludeKeepsDistinct(ctx, st, spent, x, after, payloads);
    if NoStrayHashes(after) && NoEmptyLists(after.included) && start.limit < TWO_64 {
      CleanBefore(st, after, payloads, x);
      if x.tx.pbh.Some? {
        assert after.included[|st.included|] == x;
        ReserveStep(start.limit, st.limit, st.spent, spent, x.tx);
      }
    }
  }

  /** A stray hash never turns into an included one, so cleanliness after a step implies it before. */
  lemma CleanBefore(st: Fill, after: Fill, payloads: seq<Hash>, x: Included)
    requires forall h :: h in Nullifiers(st.included) ==> h in st.spent
    requires forall h :: h in payloads ==> h !in st.spent
    requires after.spent == st.spent + SetOf(payloads)
    requires after.included == st.included + [x]
    requires Nullifiers(after.included) == Nullifiers(st.included) + payloads
    requires NoStrayHashes(after) && NoEmptyLists(after.included)
    ensures NoStrayHashes(st) && NoEmptyLists(st.included)
  {}

  lemma ConsiderKeepsInv(ctx: Ctx, verified: nat, base: seq<Tx>, start: Fill, st: Fill, left: nat, tx: Tx)
    requires FillInv(ctx, verified, start, st)
    ensures FillInv(ctx, verified, start, Consider(ctx, verified, base, st, left, tx))
  {
    if (ctx.sizeLimit.Some? && st.bytes + tx.size > ctx.sizeLimit.value) || ctx.overLimits(st.info, st.limit, tx)
       || tx.blob || tx.deposit || ctx.cancelled(left) || (tx.pbh.Some? && st.info.gas + tx.gasLimit > verified) {
    } else {
      var (spent, unseen) := if tx.pbh.Some? then InsertAll(st.spent, tx.pbh.value) else (st.spent, true);
      if unseen {
        ExecuteKeepsTotals(ctx, verified, base, start, st.(spent := spent), tx);
        ExecuteKeepsNullifiers(ctx, base, start, st, spent, tx);
        assert tx.pbh.None? ==> st.(spent := spent) == st;
      } else {
        StraysKeepNullifiers(start, st, Mark(st, tx).(spent := spent, rejected := st.rejected + [tx.hash]));
      }
    }
  }

  lemma StepKeepsInv(ctx: Ctx, verified: nat, base: seq<Tx>, prev: set<Hash>, start: Fill, st: Fill, rest: seq<Tx>)
    requires rest != [] && FillInv(ctx, verified, start, st)
    ensures FillInv(ctx, verified, start, Step(ctx, verified, base, prev, st, rest))
  {
    ConsiderKeepsInv(ctx, verified, base, start, st, |rest| - 1, rest[0]);
  }

  /** Induction over a pass: what every step keeps about the state and the rest of the pool holds
      at the end, for whatever part of the pool is left. */
  lemma {:induction false} RunInduction(ctx: Ctx, verified: nat, base: seq<Tx>, prev: set<Hash>, st: Fill, pool: seq<Tx>,
                                        inv: (Fill, seq<Tx>) -> bool)
    requires inv(st, pool)
    requires forall s, rest: seq<Tx> :: rest != [] && inv(s, rest) ==>
               inv(Step(ctx, verified, base, prev, s, rest), rest[1..])
    ensures exists rest :: inv(Run(ctx, verified, base, prev, st, pool), rest)
    decreases |pool|
  {
    if pool != [] && st.halt == Running {
      RunInduction(ctx, verified, base, prev, Step(ctx, verified, base, prev, st, pool), pool[1..], inv);
      var rest :| inv(Run(ctx, verified, base, prev, Step(ctx, verified, base, prev, st, pool), pool[1..]), rest);
      assert inv(Run(ctx, verified, base, prev, st, pool), rest);
    } else {
      assert inv(Run(ctx, verified, base, prev, st, pool), pool);
    }
  }

  lemma StartInv(ctx: Ctx, verified: nat, start: Fill)
    requires start.included == [] && start.spent == {}
    ensures FillInv(ctx, verified, start, start)
  {}

  /** For every pool order and every execution outcome: the totals are the starting values plus the
      sums over exactly the included transactions, the byte total respects its limit, the verified
      budget holds, nullifiers are pairwise distinct and tracked, and in a run without stray hashes
      or empty payload lists the limit has shrunk by exactly `DynGasLimit` of the set size. */
  lemma FilledIsAccounted(ctx: Ctx, base: seq<Tx>, prev: set<Hash>, info: Info, limit: nat, bytes: nat, pool: seq<Tx>)
    ensures FillInv(ctx, VerifiedGasLimit(ctx, limit), Start(info, limit, bytes),
                    Filled(ctx, base, prev, info, limit, bytes, pool))
  {
    var verified, start := VerifiedGasLimit(ctx, limit), Start(info, limit, bytes);
    var inv := (s: Fill, rest: seq<Tx>) => FillInv(ctx, verified, start, s);
    forall s, rest: seq<Tx> | rest != [] && inv(s, rest)
      ensures inv(Step(ctx, verified, base, prev, s, rest), rest[1..])
    {
      StepKeepsInv(ctx, verified, base, prev, start, s, rest);
    }
    StartInv(ctx, verified, start);
    assert inv(start, pool);
    RunInduction(ctx, verified, base, prev, start, pool, inv);
  }

  // ---------------------------------------------------------------------------------------------
  // The reservation
  // ---------------------------------------------------------------------------------------------

  /** The iteration gets as far as inserting the transaction's nullifiers. */
  predicate Inserts(ctx: Ctx, verified: nat, st: Fill, left: nat, tx: Tx) {
    && !(ctx.sizeLimit.Some? && st.bytes + tx.size > ctx.sizeLimit.value)
    && !ctx.overLimits(st.info, st.limit, tx) && !tx.blob && !tx.deposit && !ctx.cancelled(left)
    && tx.pbh.Some? && st.info.gas + tx.gasLimit <= verified
  }

  /** Whether one step of a run subtracts the fixed part: a priority transaction was included and the set
      holds nothing but its hashes. */
  predicate SubtractsFixed(st: Fill, tx: Tx, after: Fill) {
    |after.included| > |st.included| && tx.pbh.Some? && |after.spent| == |tx.pbh.value|
  }

  /** How often a run subtracts the fixed part. */
  function FixedParts(ctx: Ctx, verified: nat, base: seq<Tx>, prev: set<Hash>, st: Fill, pool: seq<Tx>): nat
    decreases |pool|
  {
    if pool == [] || st.halt != Running then 0
    else
      var after := Step(ctx, verified, base, prev, st, pool);
      FixedPart(st, pool[0], after) + FixedParts(ctx, verified, base, prev, after, pool[1..])
  }

  /** Between the two states the storage part was subtracted for every nullifier included, and the fixed
      part `fixed` times. */
  predicate Reserved(st: Fill, after: Fill, fixed: nat) {
    && |Nullifiers(st.included)| <= |Nullifiers(after.included)|
    && after.limit == Sub64(st.limit, COLD_SSTORE_GAS * (|Nullifiers(after.included)| - |Nullifiers(st.included)|)
                                      + FIXED_GAS * fixed)
  }

  lemma ReservedTwice(a: Fill, b: Fill, c: Fill, f: nat, g: nat)
    requires Reserved(a, b, f) && Reserved(b, c, g)
    ensures Reserved(a, c, f + g)
  {
    var m, n := |Nullifiers(b.included)| - |Nullifiers(a.included)|, |Nullifiers(c.included)| - |Nullifiers(b.included)|;
    Sub64Twice(a.limit, COLD_SSTORE_GAS * m + FIXED_GAS * f, COLD_SSTORE_GAS * n + FIXED_GAS * g);
    assert COLD_SSTORE_GAS * m + FIXED_GAS * f + (COLD_SSTORE_GAS * n + FIXED_GAS * g)
        == COLD_SSTORE_GAS * (m + n) + FIXED_GAS * (f + g);
  }

  function FixedPart(st: Fill, tx: Tx, after: Fill): nat {
    if SubtractsFixed(st, tx, after) then 1 else 0
  }

  predicate StepReserved(st: Fill, tx: Tx, after: Fill) {
    Reserved(st, after, FixedPart(st, tx, after))
  }

  lemma ReserveAmount(limit: nat, spent: set<Hash>, tx: Tx)
    requires limit < TWO_64
    ensures tx.pbh.None? ==> Reserve(limit, spent, tx) == Sub64(limit, 0)
    ensures tx.pbh.Some? ==>
              Reserve(limit, spent, tx)
              == Sub64(limit, COLD_SSTORE_GAS * |tx.pbh.value| + FIXED_GAS * if |spent| == |tx.pbh.value| then 1 else 0)
  {
    if tx.pbh.Some? {
      Sub64Twice(limit, FIXED_GAS, COLD_SSTORE_GAS * |tx.pbh.value|);
    }
  }

  lemma ExecuteReserves(ctx: Ctx, base: seq<Tx>, st: Fill, mid: Fill, tx: Tx)
    requires st.limit < TWO_64 && mid == st.(spent := mid.spent)
    ensures StepReserved(st, tx, Execute(ctx, base, mid, tx))
  {
    match ctx.evm(base + Txs(mid.included), tx)
    case Executed(gasUsed, evmGasUsed) =>
      AppendIncluded(st.included, Included(tx, gasUsed, evmGasUsed));
      ReserveAmount(st.limit, mid.spent, tx);
    case _ =>
  }

  lemma ConsiderReserves(ctx: Ctx, verified: nat, base: seq<Tx>, st: Fill, left: nat, tx: Tx)
    requires st.limit < TWO_64
    ensures StepReserved(st, tx, Consider(ctx, verified, base, st, left, tx))
  {
    var after := Consider(ctx, verified, base, st, left, tx);
    if after.included == st.included && after.limit == st.limit {
    } else if tx.pbh.None? {
      ExecuteReserves(ctx, base, st, st, tx);
    } else {
      ExecuteReserves(ctx, base, st, st.(spent := InsertAll(st.spent, tx.pbh.value).0), tx);
    }
  }

  lemma ReservesNothing(st: Fill, tx: Tx)
    requires st.limit < TWO_64
    ensures StepReserved(st, tx, st)
  {}

  lemma StepReserves(ctx: Ctx, verified: nat, base: seq<Tx>, prev: set<Hash>, st: Fill, pool: seq<Tx>)
    requires pool != [] && st.limit < TWO_64
    ensures StepReserved(st, pool[0], Step(ctx, verified, base, prev, st, pool))
  {
    ReservesNothing(st, pool[0]);
    ConsiderReserves(ctx, verified, base, st, |pool| - 1, pool[0]);
  }

  /** Of `total` subtractions of the fixed part, all but `left` have happened between `start` and `s`. */
  predicate ReservedSoFar(start: Fill, total: nat, s: Fill, left: nat) {
    left <= total && Reserved(start, s, total - left)
  }

  lemma ReservedOnce(start: Fill, total: nat, s: Fill, tx: Tx, after: Fill, left: nat)
    requires ReservedSoFar(start, total, s, FixedPart(s, tx, after) + left) && StepReserved(s, tx, after)
    ensures ReservedSoFar(start, total, after, left)
  {
    ReservedTwice(start, s, after, total - (FixedPart(s, tx, after) + left), FixedPart(s, tx, after));
  }

  lemma ReservedNext(ctx: Ctx, verified: nat, base: seq<Tx>, prev: set<Hash>, start: Fill, total: nat, s: Fill, rest: seq<Tx>)
    requires s.limit < TWO_64 && rest != [] && s.halt == Running
    requires ReservedSoFar(start, total, s, FixedParts(ctx, verified, base, prev, s, rest))
    ensures var after := Step(ctx, verified, base, prev, s, rest);
            ReservedSoFar(start, total, after, FixedParts(ctx, verified, base, prev, after, rest[1..]))
  {
    var after := Step(ctx, verified, base, prev, s, rest);
    StepReserves(ctx, verified, base, prev, s, rest);
    ReservedOnce(start, total, s, rest[0], after, FixedParts(ctx, verified, base, prev, after, rest[1..]));
  }

  lemma ReservedLimit(start: Fill, total: nat, s: Fill, left: nat)
    requires ReservedSoFar(start, total, s, left)
    ensures s.limit < TWO_64
  {}

  lemma {:induction false} ReservedFrom(ctx: Ctx, verified: nat, base: seq<Tx>, prev: set<Hash>, start: Fill, total: nat, s: Fill, rest: seq<Tx>)
    requires ReservedSoFar(start, total, s, FixedParts(ctx, verified, base, prev, s, rest))
    ensures ReservedSoFar(start, total, Run(ctx, verified, base, prev, s, rest), 0)
    decreases |rest|
  {
    if rest != [] && s.halt == Running {
      ReservedLimit(start, total, s, FixedParts(ctx, verified, base, prev, s, rest));
      ReservedNext(ctx, verified, base, prev, start, total, s, rest);
      ReservedFrom(ctx, verified, base, prev, start, total, Step(ctx, verified, base, prev, s, rest), rest[1..]);
    }
  }

  lemma ReservedAtStart(start: Fill, total: nat)
    requires start.limit < TWO_64
    ensures ReservedSoFar(start, total, start, total)
  {}

  /** The gas set aside by a run, without any condition: the storage part for every included nullifier and
      the fixed part as often as it was due. */
  lemma ReservedAlong(ctx: Ctx, verified: nat, base: seq<Tx>, prev: set<Hash>, start: Fill, pool: seq<Tx>)
    requires start.limit < TWO_64
    ensures Reserved(start, Run(ctx, verified, base, prev, start, pool), FixedParts(ctx, verified, base, prev, start, pool))
  {
    var total := FixedParts(ctx, verified, base, prev, start, pool);
    ReservedAtStart(start, total);
    ReservedFrom(ctx, verified, base, prev, start, total, start, pool);
  }

  lemma ExecuteKeepsSpent(ctx: Ctx, base: seq<Tx>, st: Fill, tx: Tx)
    ensures Execute(ctx, base, st, tx).spent == st.spent
  {}

  lemma ConsiderGrows(ctx: Ctx, verified: nat, base: seq<Tx>, st: Fill, left: nat, tx: Tx)
    ensures var after := Consider(ctx, verified, base, st, left, tx);
            && st.spent <= after.spent
            && (after.included != st.included && tx.pbh.Some? ==> |after.spent| == |st.spent| + |tx.pbh.value|)
  {
    if Inserts(ctx, verified, st, left, tx) {
      var (spent, unseen) := InsertAll(st.spent, tx.pbh.value);
      if unseen {
        InsertAllMeans(st.spent, tx.pbh.value);
        ExecuteKeepsSpent(ctx, base, st.(spent := spent), tx);
      }
    } else if tx.pbh.None? {
      ExecuteKeepsSpent(ctx, base, st, tx);
    }
  }

  /** The set only grows, and the fixed part is due only while it was empty before. */
  lemma StepGrows(ctx: Ctx, verified: nat, base: seq<Tx>, prev: set<Hash>, st: Fill, pool: seq<Tx>)
    requires pool != []
    ensures var after := Step(ctx, verified, base, prev, st, pool);
            && st.spent <= after.spent
            && AtMostOneMore(st.included, pool[0], after.included)
            && (SubtractsFixed(st, pool[0], after) ==> st.spent == {} && (pool[0].pbh.value != [] ==> after.spent != {}))
  {
    if !Skipped(prev, st, pool[0]) {
      ConsiderIncludes(ctx, verified, base, st, |pool| - 1, pool[0]);
      ConsiderGrows(ctx, verified, base, st, |pool| - 1, pool[0]);
    }
  }

  lemma {:induction false} RunExtends(ctx: Ctx, verified: nat, base: seq<Tx>, prev: set<Hash>, st: Fill, pool: seq<Tx>)
    ensures st.included <= Run(ctx, verified, base, prev, st, pool).included
    decreases |pool|
  {
    if pool != [] && st.halt == Running {
      StepGrows(ctx, verified, base, prev, st, pool);
      RunExtends(ctx, verified, base, prev, Step(ctx, verified, base, prev, st, pool), pool[1..]);
    }
  }

  lemma {:induction false} FixedAtMostOnce(ctx: Ctx, verified: nat, base: seq<Tx>, prev: set<Hash>, st: Fill, pool: seq<Tx>)
    requires NoEmptyLists(Run(ctx, verified, base, prev, st, pool).included)
    ensures FixedParts(ctx, verified, base, prev, st, pool) <= if st.spent == {} then 1 else 0
    decreases |pool|
  {
    if pool != [] && st.halt == Running {
      var after := Step(ctx, verified, base, prev, st, pool);
      StepGrows(ctx, verified, base, prev, st, pool);
      FixedAtMostOnce(ctx, verified, base, prev, after, pool[1..]);
      if SubtractsFixed(st, pool[0], after) {
        RunExtends(ctx, verified, base, prev, after, pool[1..]);
        assert after.included[|st.included|] == Run(ctx, verified, base, prev, st, pool).included[|st.included|];
      }
    }
  }

  lemma {:induction false} DistinctCount(s: seq<Hash>)
    requires Distinct(s)
    ensures |SetOf(s)| == |s|
  {
    if s != [] {
      DistinctCons(s);
      DistinctCount(s[1..]);
      assert SetOf(s) == {s[0]} + SetOf(s[1..]);
    }
  }

  lemma NoStraysCount(st: Fill)
    requires Distinct(Nullifiers(st.included)) && forall h :: h in Nullifiers(st.included) ==> h in st.spent
    ensures |Nullifiers(st.included)| <= |st.spent|
    ensures NoStrayHashes(st) <==> |Nullifiers(st.included)| == |st.spent|
  {
    DistinctCount(Nullifiers(st.included));
    var known := SetOf(Nullifiers(st.included));
    assert st.spent == known + (st.spent - known);
  }

  /** Different reservations below 2^64 leave different limits; the fixed part weighs as much as five
      hashes. */
  lemma ExactByCount(limit: nat, known: nat, fixed: nat, spent: nat)
    requires limit < TWO_64 && COLD_SSTORE_GAS * known + FIXED_GAS * fixed < TWO_64 && DynGasLimit(spent) < TWO_64
    ensures Sub64(limit, COLD_SSTORE_GAS * known + FIXED_GAS * fixed) == Sub64(limit, DynGasLimit(spent))
            <==> spent - known == 5 * (fixed - 1)
  {}

  /** The limit was lowered by the storage part per included nullifier and `fixed` fixed parts, and that is
      what the spend transaction asks for if and only if the strays weigh as much as the surplus parts. */
  predicate ReservedExactlyIf(limit: nat, fill: Fill, fixed: nat) {
    var known := |Nullifiers(fill.included)|;
    var reserved := 20_000 * known + 100_000 * fixed;
    && known <= |fill.spent|
    && fill.limit == Sub64(limit, reserved)
    && (reserved < TWO_64 && 100_000 + 20_000 * |fill.spent| < TWO_64 ==>
          (fill.limit == Sub64(limit, 100_000 + 20_000 * |fill.spent|) <==> |fill.spent| - known == 5 * (fixed - 1)))
  }

  lemma ReservedMeans(start: Fill, fill: Fill, fixed: nat)
    requires Reserved(start, fill, fixed) && start.included == [] && start.limit < TWO_64
    requires |Nullifiers(fill.included)| <= |fill.spent|
    ensures ReservedExactlyIf(start.limit, fill, fixed)
  {
    var known := |Nullifiers(fill.included)|;
    if COLD_SSTORE_GAS * known + FIXED_GAS * fixed < TWO_64 && DynGasLimit(|fill.spent|) < TWO_64 {
      ExactByCount(start.limit, known, fixed, |fill.spent|);
    }
  }

  /** For every pool and execution outcome, empty payload lists and stray hashes included. */
  lemma ReservationExactIff(ctx: Ctx, base: seq<Tx>, prev: set<Hash>, info: Info, limit: nat, bytes: nat, pool: seq<Tx>)
    requires limit < TWO_64
    ensures ReservedExactlyIf(limit, Filled(ctx, base, prev, info, limit, bytes, pool),
                              FixedParts(ctx, VerifiedGasLimit(ctx, limit), base, prev, Start(info, limit, bytes), pool))
  {
    var fill := Filled(ctx, base, prev, info, limit, bytes, pool);
    var verified, start := VerifiedGasLimit(ctx, limit), Start(info, limit, bytes);
    ReservedAlong(ctx, verified, base, prev, start, pool);
    FilledIsAccounted(ctx, base, prev, info, limit, bytes, pool);
    NoStraysCount(fill);
    ReservedMeans(start, fill, FixedParts(ctx, verified, base, prev, start, pool));
  }

  /** The reservation is exact, in the wrapping arithmetic of the limit, if and only if there is no stray
      hash; as far as the limit covers it, it is a plain difference. */
  predicate ExactIffClean(limit: nat, fill: Fill) {
    var reserve := DynGasLimit(|fill.spent|);
    if fill.spent == {} then fill.limit == limit
    else
      && (fill.limit == Sub64(limit, reserve) <==> NoStrayHashes(fill))
      && Sub64(limit, reserve) == if reserve <= limit then limit - reserve else TWO_64 + limit - reserve
  }

  lemma AtMostOneFixedPart(start: Fill, fill: Fill, fixed: nat)
    requires NullifiersTracked(start, fill) && ReservedExactlyIf(start.limit, fill, fixed) && fixed <= 1
    requires NoEmptyLists(fill.included) && start.limit < TWO_64 && DynGasLimit(|fill.spent|) < TWO_64
    ensures ExactIffClean(start.limit, fill)
  {
    NoStraysCount(fill);
  }

  /** For every run without empty payload lists. */
  lemma ReservationExact(ctx: Ctx, base: seq<Tx>, prev: set<Hash>, info: Info, limit: nat, bytes: nat, pool: seq<Tx>)
    requires limit < TWO_64
    ensures var fill := Filled(ctx, base, prev, info, limit, bytes, pool);
            NoEmptyLists(fill.included) && DynGasLimit(|fill.spent|) < TWO_64 ==> ExactIffClean(limit, fill)
  {
    var fill := Filled(ctx, base, prev, info, limit, bytes, pool);
    var verified, start := VerifiedGasLimit(ctx, limit), Start(info, limit, bytes);
    FilledIsAccounted(ctx, base, prev, info, limit, bytes, pool);
    ReservationExactIff(ctx, base, prev, info, limit, bytes, pool);
    if NoEmptyLists(fill.included) && DynGasLimit(|fill.spent|) < TWO_64 {
      FixedAtMostOnce(ctx, verified, base, prev, start, pool);
      AtMostOneFixedPart(start, fill, FixedParts(ctx, verified, base, prev, start, pool));
    }
  }

  /** Empty payload lists need the exclusion: a priority transaction without a nullifier sets the fixed part
      aside although nothing will be spent. */
  lemma EmptyListReserves()
    ensures var fill := Filled(OneFailureCtx(), [], {}, Info(0, 0, 0, 0), 30_000_000, 0, [PriorityTx(2, 2, [])]);
            fill.halt == Running && fill.spent == {} && fill.limit == 30_000_000 - 100_000
  {}

  // ---------------------------------------------------------------------------------------------
  // Where stray hashes come from
  // ---------------------------------------------------------------------------------------------

  /** A priority transaction puts a new hash into the set and is then refused for a later duplicate, or
      does not execute. */
  predicate LeavesStray(ctx: Ctx, verified: nat, base: seq<Tx>, st: Fill, left: nat, tx: Tx) {
    && Inserts(ctx, verified, st, left, tx)
    && var (spent, unseen) := InsertAll(st.spent, tx.pbh.value);
       spent != st.spent && !(unseen && ctx.evm(base + Txs(st.included), tx).Executed?)
  }

  predicate NeverLeavesStray(ctx: Ctx, verified: nat, base: seq<Tx>, prev: set<Hash>, st: Fill, pool: seq<Tx>)
    decreases |pool|
  {
    pool != [] && st.halt == Running ==>
      && (Skipped(prev, st, pool[0]) || !LeavesStray(ctx, verified, base, st, |pool| - 1, pool[0]))
      && NeverLeavesStray(ctx, verified, base, prev, Step(ctx, verified, base, prev, st, pool), pool[1..])
  }

  /** The hashes of the set that no included transaction carries. */
  function Strays(st: Fill): set<Hash> {
    st.spent - SetOf(Nullifiers(st.included))
  }

  predicate Tracked(st: Fill) {
    forall h :: h in Nullifiers(st.included) ==> h in st.spent
  }

  /** Inserted hashes are strays unless they are included along. */
  lemma IncludedOrStray(st: Fill, after: Fill, payloads: seq<Hash>)
    requires Tracked(st) && st.spent <= after.spent
    requires || after.included == st.included
             || (Nullifiers(after.included) == Nullifiers(st.included) + payloads
                 && after.spent == st.spent + SetOf(payloads) && st.spent !! SetOf(payloads))
    ensures Tracked(after)
    ensures Strays(after) == Strays(st) + (if after.included == st.included then after.spent - st.spent else {})
  {
    if after.included != st.included {
      assert forall h :: h in Nullifiers(after.included) <==> h in Nullifiers(st.included) || h in payloads;
      assert Strays(after) == Strays(st);
    }
  }

  lemma ExecuteStrays(ctx: Ctx, base: seq<Tx>, st: Fill, tx: Tx, spent: set<Hash>)
    requires Tracked(st)
    requires if tx.pbh.Some? then InsertAll(st.spent, tx.pbh.value) == (spent, true) else spent == st.spent
    ensures var after := Execute(ctx, base, st.(spent := spent), tx);
            && Tracked(after)
            && Strays(after) == Strays(st) + (if ctx.evm(base + Txs(st.included), tx).Executed? then {} else spent - st.spent)
  {
    var after := Execute(ctx, base, st.(spent := spent), tx);
    var outcome := ctx.evm(base + Txs(st.included), tx);
    if outcome.Executed? {
      var payloads := if tx.pbh.Some? then tx.pbh.value else [];
      InsertAllMeans(st.spent, payloads);
      AppendIncluded(st.included, Included(tx, outcome.gasUsed, outcome.evmGasUsed));
      IncludedOrStray(st, after, payloads);
    } else {
      assert after.included == st.included && after.spent == spent;
      IncludedOrStray(st, after, []);
    }
  }

  /** What one iteration adds to the strays. */
  function NewStrays(ctx: Ctx, verified: nat, base: seq<Tx>, st: Fill, left: nat, tx: Tx): set<Hash> {
    if !Inserts(ctx, verified, st, left, tx) then {}
    else
      var (spent, unseen) := InsertAll(st.spent, tx.pbh.value);
      if unseen && ctx.evm(base + Txs(st.included), tx).Executed? then {} else spent - st.spent
  }

  lemma ConsiderStrays(ctx: Ctx, verified: nat, base: seq<Tx>, st: Fill, left: nat, tx: Tx)
    requires Tracked(st)
    ensures var after := Consider(ctx, verified, base, st, left, tx);
            Tracked(after) && Strays(after) == Strays(st) + NewStrays(ctx, verified, base, st, left, tx)
  {
    var after := Consider(ctx, verified, base, st, left, tx);
    if tx.pbh.None? {
      ExecuteStrays(ctx, base, st, tx, st.spent);
      assert st.(spent := st.spent) == st;
    } else if Inserts(ctx, verified, st, left, tx) {
      var (spent, unseen) := InsertAll(st.spent, tx.pbh.value);
      if unseen {
        ExecuteStrays(ctx, base, st, tx, spent);
      } else {
        IncludedOrStray(st, after, []);
      }
    }
  }

  lemma NewStraysIff(ctx: Ctx, verified: nat, base: seq<Tx>, st: Fill, left: nat, tx: Tx)
    ensures var added := NewStrays(ctx, verified, base, st, left, tx);
            (added != {} <==> LeavesStray(ctx, verified, base, st, left, tx)) && added !! st.spent
  {
    if Inserts(ctx, verified, st, left, tx) {
      var spent := InsertAll(st.spent, tx.pbh.value).0;
      assert spent == st.spent + (spent - st.spent);
    }
  }

  /** Disjoint additions are seen. */
  lemma AddsStrays(before: set<Hash>, added: set<Hash>)
    requires before !! added
    ensures before <= before + added && (before + added == before <==> added == {})
  {
    if added != {} {
      var h :| h in added;
      assert h in before + added && h !in before;
    }
  }

  lemma StepStrays(ctx: Ctx, verified: nat, base: seq<Tx>, prev: set<Hash>, st: Fill, pool: seq<Tx>)
    requires pool != [] && Tracked(st)
    ensures var after := Step(ctx, verified, base, prev, st, pool);
            && Tracked(after) && Strays(st) <= Strays(after)
            && (Strays(after) == Strays(st) <==>
                  Skipped(prev, st, pool[0]) || !LeavesStray(ctx, verified, base, st, |pool| - 1, pool[0]))
  {
    ConsiderStrays(ctx, verified, base, st, |pool| - 1, pool[0]);
    NewStraysIff(ctx, verified, base, st, |pool| - 1, pool[0]);
    AddsStrays(Strays(st), NewStrays(ctx, verified, base, st, |pool| - 1, pool[0]));
  }

  lemma NoStraysEmpty(st: Fill)
    requires Tracked(st)
    ensures NoStrayHashes(st) <==> Strays(st) == {}
  {
    forall h | h in st.spent && Strays(st) == {} ensures h in SetOf(Nullifiers(st.included)) {
      assert h !in Strays(st);
    }
  }

  /** A run ends without stray hashes if and only if no priority transaction of it inserts a hash and is
      then refused as a duplicate or fails to execute; a stray never becomes an included hash. */
  lemma {:induction false} NoStraysIff(ctx: Ctx, verified: nat, base: seq<Tx>, prev: set<Hash>, st: Fill, pool: seq<Tx>)
    requires Tracked(st)
    ensures var end := Run(ctx, verified, base, prev, st, pool);
            && Tracked(end) && Strays(st) <= Strays(end)
            && (Strays(end) == Strays(st) <==> NeverLeavesStray(ctx, verified, base, prev, st, pool))
            && (NoStrayHashes(end) <==> Strays(end) == {})
    decreases |pool|
  {
    NoStraysEmpty(st);
    if pool != [] && st.halt == Running {
      StepStrays(ctx, verified, base, prev, st, pool);
      NoStraysIff(ctx, verified, base, prev, Step(ctx, verified, base, prev, st, pool), pool[1..]);
    }
  }

  /** The same for a whole pass: the reservation is exact if and only if no such transaction occurred. */
  lemma ReservationExactIffNoFailure(ctx: Ctx, base: seq<Tx>, prev: set<Hash>, info: Info, limit: nat, bytes: nat, pool: seq<Tx>)
    requires limit < TWO_64
    ensures var fill := Filled(ctx, base, prev, info, limit, bytes, pool);
            NoEmptyLists(fill.included) && fill.spent != {} && DynGasLimit(|fill.spent|) < TWO_64 ==>
              (fill.limit == Sub64(limit, DynGasLimit(|fill.spent|)) <==>
                 NeverLeavesStray(ctx, VerifiedGasLimit(ctx, limit), base, prev, Start(info, limit, bytes), pool))
  {
    ReservationExact(ctx, base, prev, info, limit, bytes, pool);
    NoStraysIff(ctx, VerifiedGasLimit(ctx, limit), base, prev, Start(info, limit, bytes), pool);
  }

  function PriorityTx(hash: Hash, sender: Address, nullifiers: seq<Hash>): Tx {
    Tx(hash, sender, 0, 21_000, 100, 100, 0, 0, false, false, Some(nullifiers), {})
  }

  /** An environment in which exactly the transaction with hash 1 fails to execute. */
  function OneFailureCtx(): Ctx {
    Ctx(0, 70, None, (i, l, t) => false,
        (b, t: Tx) => if t.hash == 1 then Invalid else Executed(21_000, 21_000),
        n => false, (b, s) => None, 0, 0)
  }

  /** One step over a fresh one-nullifier transaction: failed, it leaves its hash behind. */
  lemma StrayStep(verified: nat, s: Fill, tx: Tx, rest: seq<Tx>)
    requires tx == PriorityTx(1, 1, [10]) && rest != [] && rest[0] == tx && verified >= 21_000
    requires s == Start(Info(0, 0, 0, 0), s.limit, 0)
    ensures Step(OneFailureCtx(), verified, [], {}, s, rest) == s.(spent := {10}, marked := {1})
  {
    InsertOne({}, 10);
    assert {} + {10} == {10} && {} + {1} == {1};
    assert s.info.gas + tx.gasLimit <= verified;
  }

  lemma CleanStep(verified: nat, s: Fill, tx: Tx, rest: seq<Tx>)
    requires tx == PriorityTx(2, 2, [20]) && rest != [] && rest[0] == tx && verified >= 21_000
    requires s == Start(Info(0, 0, 0, 0), s.limit, 0).(spent := {10}, marked := {1})
    requires COLD_SSTORE_GAS <= s.limit < TWO_64
    ensures var after := Step(OneFailureCtx(), verified, [], {}, s, rest);
            && after.included == [Included(tx, 21_000, 21_000)] && after.halt == Running
            && after.limit == s.limit - COLD_SSTORE_GAS && after.spent == {10, 20}
  {
    InsertOne({10}, 20);
    assert {10} + {20} == {10, 20};
    assert s.info.gas + tx.gasLimit <= verified;
  }

  /** Without the cleanliness condition the reservation can fall short: a priority transaction whose
      execution fails leaves its nullifier behind, the fixed part is then never subtracted, and the
      spend transaction asks for 140000 gas while 20000 were set aside. */
  lemma StrayHashUnderReserves()
    ensures var pool := [PriorityTx(1, 1, [10]), PriorityTx(2, 2, [20])];
            var fill := Filled(OneFailureCtx(), [], {}, Info(0, 0, 0, 0), 30_000_000, 0, pool);
            && fill.halt == Running && Txs(fill.included) == [pool[1]]
            && fill.limit == 30_000_000 - 20_000 && DynGasLimit(|fill.spent|) == 140_000
  {
    var ctx := OneFailureCtx();
    var pool := [PriorityTx(1, 1, [10]), PriorityTx(2, 2, [20])];
    var verified, s0 := VerifiedGasLimit(ctx, 30_000_000), Start(Info(0, 0, 0, 0), 30_000_000, 0);
    assert verified == 21_000_000;
    StrayStep(verified, s0, pool[0], pool);
    var s1 := s0.(spent := {10}, marked := {1});
    assert pool[1..] == [pool[1]];
    CleanStep(verified, s1, pool[1], pool[1..]);
    var s2 := Step(ctx, verified, [], {}, s1, pool[1..]);
    assert pool[1..][1..] == [];
    assert Run(ctx, verified, [], {}, s1, pool[1..]) == Run(ctx, verified, [], {}, s2, []);
    assert Filled(ctx, [], {}, Info(0, 0, 0, 0), 30_000_000, 0, pool) == Run(ctx, verified, [], {}, s1, pool[1..]);
  }

  lemma InsertOne(spent: set<Hash>, h: Hash)
    requires h !in spent
    ensures InsertAll(spent, [h]) == (spent + {h}, true)
  {
    assert [h][1..] == [];
  }

  // ---------------------------------------------------------------------------------------------
  // Where included transactions come from
  // ---------------------------------------------------------------------------------------------

  /** Included transactions come from the pool, are new to the block and pairwise distinct. */
  predicate FromPool(prev: set<Hash>, pool: seq<Tx>, st: Fill) {
    && DistinctHashes(Txs(st.included))
    && Hashes(Txs(st.included)) !! prev
    && forall t :: t in Txs(st.included) ==> t in pool
  }

  predicate AtMostOneMore(before: seq<Included>, tx: Tx, after: seq<Included>) {
    || after == before
    || (|after| == |before| + 1 && after[..|before|] == before && after[|before|].tx == tx)
  }

  lemma ConsiderIncludes(ctx: Ctx, verified: nat, base: seq<Tx>, st: Fill, left: nat, tx: Tx)
    ensures AtMostOneMore(st.included, tx, Consider(ctx, verified, base, st, left, tx).included)
    ensures Consider(ctx, verified, base, st, left, tx).included != st.included ==>
              ctx.evm(base + Txs(st.included), tx).Executed? && !tx.blob && !tx.deposit
  {}

  /** What is left of the pool is distinct, known and not yet included. */
  predicate RestUnused(pool: seq<Tx>, st: Fill, rest: seq<Tx>) {
    && DistinctHashes(rest)
    && Hashes(rest) !! Hashes(Txs(st.included))
    && forall t :: t in rest ==> t in pool
  }

  lemma StepFromPool(prev: set<Hash>, pool: seq<Tx>, st: Fill, rest: seq<Tx>, after: Fill)
    requires rest != [] && FromPool(prev, pool, st) && RestUnused(pool, st, rest)
    requires after.included == st.included || (rest[0].hash !in prev && AtMostOneMore(st.included, rest[0], after.included))
    ensures FromPool(prev, pool, after) && RestUnused(pool, after, rest[1..])
  {
    var tx := rest[0];
    assert tx.hash in Hashes(rest);
    forall h | h in Hashes(rest[1..]) ensures h in Hashes(rest) && h != tx.hash {
      var k :| 0 <= k < |rest[1..]| && rest[1..][k].hash == h;
      assert rest[k + 1].hash == h;
    }
    if after.included != st.included {
      assert Txs(after.included) == Txs(st.included) + [tx];
      assert Hashes([tx]) == {tx.hash};
      assert Hashes(Txs(after.included)) == Hashes(Txs(st.included)) + {tx.hash};
      DistinctAppend(Txs(st.included), [tx]);
    }
  }

  predicate PoolInv(prev: set<Hash>, pool: seq<Tx>, st: Fill, rest: seq<Tx>) {
    FromPool(prev, pool, st) && RestUnused(pool, st, rest)
  }

  lemma StepKeepsPoolInv(ctx: Ctx, verified: nat, base: seq<Tx>, prev: set<Hash>, pool: seq<Tx>, st: Fill, rest: seq<Tx>)
    requires rest != [] && PoolInv(prev, pool, st, rest)
    ensures PoolInv(prev, pool, Step(ctx, verified, base, prev, st, rest), rest[1..])
  {
    var after := Step(ctx, verified, base, prev, st, rest);
    if Skipped(prev, st, rest[0]) {
      assert after.included == st.included;
    } else {
      ConsiderIncludes(ctx, verified, base, st, |rest| - 1, rest[0]);
    }
    StepFromPool(prev, pool, st, rest, after);
  }

  lemma StartPoolInv(prev: set<Hash>, pool: seq<Tx>, start: Fill)
    requires DistinctHashes(pool) && start.included == []
    ensures PoolInv(prev, pool, start, pool)
  {}

  /** A continuation only ever appends pool transactions that are absent from the committed prefix. */
  lemma FilledIsFresh(ctx: Ctx, base: seq<Tx>, prev: set<Hash>, info: Info, limit: nat, bytes: nat, pool: seq<Tx>)
    requires DistinctHashes(pool)
    ensures FromPool(prev, pool, Filled(ctx, base, prev, info, limit, bytes, pool))
  {
    var verified, start := VerifiedGasLimit(ctx, limit), Start(info, limit, bytes);
    var inv := (s: Fill, rest: seq<Tx>) => PoolInv(prev, pool, s, rest);
    forall s, rest: seq<Tx> | rest != [] && inv(s, rest)
      ensures inv(Step(ctx, verified, base, prev, s, rest), rest[1..])
    {
      StepKeepsPoolInv(ctx, verified, base, prev, pool, s, rest);
    }
    StartPoolInv(prev, pool, start);
    assert inv(start, pool);
    RunInduction(ctx, verified, base, prev, start, pool, inv);
  }

  /** The EVM does not execute a transaction that is in the block already: its nonce is used up. */
  ghost predicate NoReplay(ctx: Ctx) {
    forall txs, tx :: ctx.evm(txs, tx).Executed? ==> tx.hash !in Hashes(txs)
  }

  lemma {:induction false} NoReplayIsFresh(ctx: Ctx, verified: nat, base: seq<Tx>, prev: set<Hash>, st: Fill, pool: seq<Tx>)
    requires NoReplay(ctx) && Hashes(Txs(st.included)) !! Hashes(base)
    ensures Hashes(Txs(Run(ctx, verified, base, prev, st, pool).included)) !! Hashes(base)
    decreases |pool|
  {
    if pool != [] && st.halt == Running {
      var after, tx := Step(ctx, verified, base, prev, st, pool), pool[0];
      assert Hashes(Txs(after.included)) !! Hashes(base) by {
        if !Skipped(prev, st, tx) { ConsiderIncludes(ctx, verified, base, st, |pool| - 1, tx); }
        if after.included != st.included {
          assert Hashes(base + Txs(st.included)) == Hashes(base) + Hashes(Txs(st.included));
          assert Txs(after.included) == Txs(st.included) + [tx];
        }
      }
      NoReplayIsFresh(ctx, verified, base, prev, after, pool[1..]);
    }
  }

  predicate NoneBlobOrDeposit(included: seq<Included>) {
    forall x :: x in included ==> !x.tx.blob && !x.tx.deposit
  }

  /** A pool transaction that carries blobs or is a deposit is never included. */
  lemma {:induction false} PassSkipsBlobsAndDeposits(ctx: Ctx, verified: nat, base: seq<Tx>, prev: set<Hash>, st: Fill, pool: seq<Tx>)
    requires NoneBlobOrDeposit(st.included)
    ensures NoneBlobOrDeposit(Run(ctx, verified, base, prev, st, pool).included)
    decreases |pool|
  {
    if pool != [] && st.halt == Running {
      var after := Step(ctx, verified, base, prev, st, pool);
      if !Skipped(prev, st, pool[0]) {
        ConsiderIncludes(ctx, verified, base, st, |pool| - 1, pool[0]);
        if after.included != st.included {
          assert after.included == st.included + [after.included[|st.included|]];
        }
      }
      PassSkipsBlobsAndDeposits(ctx, verified, base, prev, after, pool[1..]);
    }
  }

  /** A pass whose cancel signal is never raised is not cancelled. */
  lemma {:induction false} NeverCancelled(ctx: Ctx, verified: nat, base: seq<Tx>, prev: set<Hash>, st: Fill, pool: seq<Tx>)
    requires st.halt != Cancelled && forall n :: !ctx.cancelled(n)
    ensures Run(ctx, verified, base, prev, st, pool).halt != Cancelled
    decreases |pool|
  {
    if pool != [] && st.halt == Running {
      NeverCancelled(ctx, verified, base, prev, Step(ctx, verified, base, prev, st, pool), pool[1..]);
    }
  }

  /** Once a sender is marked invalid, nothing of theirs is included any more. */
  lemma {:induction false} MarkedSenderStaysOut(ctx: Ctx, verified: nat, base: seq<Tx>, prev: set<Hash>, st: Fill, pool: seq<Tx>, a: Address)
    requires a in st.marked
    ensures var end := Run(ctx, verified, base, prev, st, pool);
            && st.included <= end.included
            && forall k :: |st.included| <= k < |end.included| ==> end.included[k].tx.sender != a
    decreases |pool|
  {
    if pool != [] && st.halt == Running {
      var after := Step(ctx, verified, base, prev, st, pool);
      StepGrows(ctx, verified, base, prev, st, pool);
      assert a in after.marked;
      MarkedSenderStaysOut(ctx, verified, base, prev, after, pool[1..], a);
    }
  }

  /** The builder's own transaction pays no tip and carries every included nullifier. */
  lemma SpendCarriesNullifiers(ctx: Ctx, base: seq<Tx>, prev: set<Hash>, info: Info, limit: nat, bytes: nat, pool: seq<Tx>)
    ensures var fill := Filled(ctx, base, prev, info, limit, bytes, pool);
            var out := Finish(ctx, base, fill);
            out.Done? ==>
              && out.info.fees == info.fees + FeesPaid(ctx.baseFee, fill.included)
              && (out.spend.Some? ==>
                    && out.txs == base + Txs(fill.included) + [out.spend.value]
                    && out.spend.value.gasLimit == 100_000 + 20_000 * |out.spend.value.spends|
                    && forall h :: h in Nullifiers(fill.included) ==> h in out.spend.value.spends)
              && (out.spend.None? ==> out.txs == base + Txs(fill.included))
  {
    FilledIsAccounted(ctx, base, prev, info, limit, bytes, pool);
  }

  // ---------------------------------------------------------------------------------------------
  // What becomes of every transaction
  // ---------------------------------------------------------------------------------------------

  datatype Fate =
    | DoesNotFit
    | PassCancelled
    | OverBudget
    | Duplicate
    | Accepted(gasUsed: nat, evmGasUsed: nat)
    | Stale
    | Refused
    | Fatal

  /** The transaction fits the byte limit, is not over limits and is neither a blob nor a deposit. */
  predicate Fits(ctx: Ctx, st: Fill, tx: Tx) {
    && (ctx.sizeLimit.Some? ==> st.bytes + tx.size <= ctx.sizeLimit.value)
    && !ctx.overLimits(st.info, st.limit, tx)
    && !tx.blob && !tx.deposit
  }

  predicate InBudget(verified: nat, st: Fill, tx: Tx) {
    tx.pbh.Some? ==> st.info.gas + tx.gasLimit <= verified
  }

  predicate Unspent(st: Fill, tx: Tx) {
    tx.pbh.Some? ==> Distinct(tx.pbh.value) && forall h :: h in tx.pbh.value ==> h !in st.spent
  }

  /** When a transaction the pool yields meets which fate. */
  predicate Meets(ctx: Ctx, verified: nat, base: seq<Tx>, st: Fill, left: nat, tx: Tx, fate: Fate) {
    var considered := Fits(ctx, st, tx) && !ctx.cancelled(left);
    var executed := considered && InBudget(verified, st, tx) && Unspent(st, tx);
    var outcome := ctx.evm(base + Txs(st.included), tx);
    match fate
    case DoesNotFit => !Fits(ctx, st, tx)
    case PassCancelled => Fits(ctx, st, tx) && ctx.cancelled(left)
    case OverBudget => considered && !InBudget(verified, st, tx)
    case Duplicate => considered && InBudget(verified, st, tx) && !Unspent(st, tx)
    case Accepted(gasUsed, evmGasUsed) => executed && outcome == Executed(gasUsed, evmGasUsed)
    case Stale => executed && outcome == NonceTooLow
    case Refused => executed && outcome == Invalid
    case Fatal => executed && outcome == FatalError
  }

  /** What each fate does: an accepted transaction is appended with the gas the EVM reports and adds to every
      total; a misfit, an over-budget one, a duplicate and an invalid one cost their sender the rest of the
      pass; a duplicate's hash is also rejected; a cancellation or a fatal error halts the pass; a stale one is
      passed over. */
  predicate Suffers(baseFee: nat, st: Fill, tx: Tx, fate: Fate, after: Fill) {
    && after.included == (if fate.Accepted? then st.included + [Included(tx, fate.gasUsed, fate.evmGasUsed)] else st.included)
    && after.marked == (if fate.DoesNotFit? || fate.OverBudget? || fate.Duplicate? || fate.Refused? then st.marked + {tx.sender}
                        else st.marked)
    && after.rejected == (if fate.Duplicate? then st.rejected + [tx.hash] else st.rejected)
    && after.halt == (if fate.PassCancelled? then Cancelled else if fate.Fatal? then Failed else st.halt)
    && after.bytes == (if fate.Accepted? then st.bytes + tx.size else st.bytes)
    && after.info == (if fate.Accepted? then
                        Info(st.info.gas + fate.gasUsed, st.info.evmGas + fate.evmGasUsed, st.info.da + tx.daSize,
                             st.info.fees + fate.gasUsed * PaidPerGas(tx, baseFee))
                      else st.info)
    && (!fate.Accepted? ==> after.limit == st.limit)
    && (fate.DoesNotFit? || fate.PassCancelled? || fate.OverBudget? ==> after.spent == st.spent)
    && (fate.Accepted? || fate.Stale? || fate.Refused? || fate.Fatal? ==>
          after.spent == st.spent + SetOf(if tx.pbh.Some? then tx.pbh.value else []))
  }

  /** Exactly one fate is met. */
  lemma OneFate(ctx: Ctx, verified: nat, base: seq<Tx>, st: Fill, left: nat, tx: Tx) returns (fate: Fate)
    ensures Meets(ctx, verified, base, st, left, tx, fate)
    ensures forall f :: Meets(ctx, verified, base, st, left, tx, f) ==> f == fate
  {
    if !Fits(ctx, st, tx) { return DoesNotFit; }
    if ctx.cancelled(left) { return PassCancelled; }
    if !InBudget(verified, st, tx) { return OverBudget; }
    if !Unspent(st, tx) { return Duplicate; }
    match ctx.evm(base + Txs(st.included), tx)
    case Executed(gasUsed, evmGasUsed) => return Accepted(gasUsed, evmGasUsed);
    case NonceTooLow => return Stale;
    case Invalid => return Refused;
    case FatalError => return Fatal;
  }

  lemma ExecuteSuffers(ctx: Ctx, base: seq<Tx>, st: Fill, spent: set<Hash>, tx: Tx, fate: Fate)
    requires spent == st.spent + SetOf(if tx.pbh.Some? then tx.pbh.value else [])
    requires match ctx.evm(base + Txs(st.included), tx)
             case Executed(gasUsed, evmGasUsed) => fate == Accepted(gasUsed, evmGasUsed)
             case NonceTooLow => fate == Stale
             case Invalid => fate == Refused
             case FatalError => fate == Fatal
    ensures Suffers(ctx.baseFee, st, tx, fate, Execute(ctx, base, st.(spent := spent), tx))
  {
    if fate.Accepted? { CommitAdds(ctx.baseFee, st.info, Included(tx, fate.gasUsed, fate.evmGasUsed)); }
  }

  /** A considered transaction suffers exactly the fate it meets. */
  lemma ConsiderSuffers(ctx: Ctx, verified: nat, base: seq<Tx>, st: Fill, left: nat, tx: Tx, fate: Fate)
    requires Meets(ctx, verified, base, st, left, tx, fate)
    ensures Suffers(ctx.baseFee, st, tx, fate, Consider(ctx, verified, base, st, left, tx))
  {
    if fate.Accepted? || fate.Stale? || fate.Refused? || fate.Fatal? {
      if tx.pbh.Some? {
        InsertAllMeans(st.spent, tx.pbh.value);
        ExecuteSuffers(ctx, base, st, InsertAll(st.spent, tx.pbh.value).0, tx, fate);
      } else {
        assert st.spent + SetOf([]) == st.spent && st.(spent := st.spent) == st;
        ExecuteSuffers(ctx, base, st, st.spent, tx, fate);
      }
    } else if fate.Duplicate? {
      InsertAllMeans(st.spent, tx.pbh.value);
    }
  }

  /** The state of a pass before it reaches entry `i` of the pool. */
  function StateAt(ctx: Ctx, verified: nat, base: seq<Tx>, prev: set<Hash>, st: Fill, pool: seq<Tx>, i: nat): Fill
    requires i <= |pool|
  {
    if i == 0 then st
    else
      var s := StateAt(ctx, verified, base, prev, st, pool, i - 1);
      if s.halt != Running then s else Step(ctx, verified, base, prev, s, pool[i - 1..])
  }

  lemma {:induction false} RunReaches(ctx: Ctx, verified: nat, base: seq<Tx>, prev: set<Hash>, st: Fill, pool: seq<Tx>, i: nat)
    requires i <= |pool|
    ensures Run(ctx, verified, base, prev, StateAt(ctx, verified, base, prev, st, pool, i), pool[i..])
         == Run(ctx, verified, base, prev, st, pool)
  {
    if i == 0 {
      assert pool[0..] == pool;
    } else {
      RunReaches(ctx, verified, base, prev, st, pool, i - 1);
      assert pool[i - 1..][1..] == pool[i..];
    }
  }

  /** Between two entries: a halted pass stands still, an entry that is committed already or from a marked
      sender is passed over, and any other entry suffers the fate it meets. */
  ghost predicate FateAt(ctx: Ctx, verified: nat, base: seq<Tx>, prev: set<Hash>, s: Fill, left: nat, tx: Tx, after: Fill) {
    if s.halt != Running || tx.sender in s.marked || tx.hash in prev then after == s
    else exists fate :: Meets(ctx, verified, base, s, left, tx, fate) && Suffers(ctx.baseFee, s, tx, fate, after)
  }

  lemma StepMeetsFate(ctx: Ctx, verified: nat, base: seq<Tx>, prev: set<Hash>, s: Fill, rest: seq<Tx>)
    requires rest != []
    ensures FateAt(ctx, verified, base, prev, s, |rest| - 1, rest[0],
                   if s.halt != Running then s else Step(ctx, verified, base, prev, s, rest))
  {
    if !(s.halt != Running || rest[0].sender in s.marked || rest[0].hash in prev) {
      var fate := OneFate(ctx, verified, base, s, |rest| - 1, rest[0]);
      ConsiderSuffers(ctx, verified, base, s, |rest| - 1, rest[0], fate);
    }
  }

  lemma NextMeetsFate(ctx: Ctx, verified: nat, base: seq<Tx>, prev: set<Hash>, st: Fill, pool: seq<Tx>, i: nat)
    requires i < |pool|
    ensures FateAt(ctx, verified, base, prev, StateAt(ctx, verified, base, prev, st, pool, i), |pool| - 1 - i, pool[i],
                   StateAt(ctx, verified, base, prev, st, pool, i + 1))
  {
    StepMeetsFate(ctx, verified, base, prev, StateAt(ctx, verified, base, prev, st, pool, i), pool[i..]);
  }

  lemma RunEnds(ctx: Ctx, verified: nat, base: seq<Tx>, prev: set<Hash>, st: Fill, pool: seq<Tx>)
    ensures Run(ctx, verified, base, prev, st, pool) == StateAt(ctx, verified, base, prev, st, pool, |pool|)
  {
    RunReaches(ctx, verified, base, prev, st, pool, |pool|);
    assert pool[|pool|..] == [];
  }

  /** The whole pass, entry by entry, from the start to what it ends with. */
  lemma PassFollowsFates(ctx: Ctx, base: seq<Tx>, prev: set<Hash>, info: Info, limit: nat, bytes: nat, pool: seq<Tx>, i: nat)
    requires i < |pool|
    ensures var verified, start := VerifiedGasLimit(ctx, limit), Start(info, limit, bytes);
            && StateAt(ctx, verified, base, prev, start, pool, 0) == Fill(info, limit, bytes, {}, [], [], {}, Running)
            && FateAt(ctx, verified, base, prev, StateAt(ctx, verified, base, prev, start, pool, i), |pool| - 1 - i, pool[i],
                      StateAt(ctx, verified, base, prev, start, pool, i + 1))
            && Filled(ctx, base, prev, info, limit, bytes, pool) == StateAt(ctx, verified, base, prev, start, pool, |pool|)
  {
    var verified, start := VerifiedGasLimit(ctx, limit), Start(info, limit, bytes);
    RunEnds(ctx, verified, base, prev, start, pool);
    NextMeetsFate(ctx, verified, base, prev, start, pool, i);
  }

  /** A transaction is appended at its turn, with the gas the EVM reports, if and only if the pass is running,
      the entry is neither committed nor from a marked sender, it fits, the pass is not cancelled, a priority
      one is in budget with distinct unspent nullifiers, and the EVM executes it. */
  lemma AppendedIff(ctx: Ctx, base: seq<Tx>, prev: set<Hash>, info: Info, limit: nat, bytes: nat, pool: seq<Tx>, i: nat)
    requires i < |pool|
    ensures var verified, start := VerifiedGasLimit(ctx, limit), Start(info, limit, bytes);
            var s, t := StateAt(ctx, verified, base, prev, start, pool, i), StateAt(ctx, verified, base, prev, start, pool, i + 1);
            var tx := pool[i];
            var outcome := ctx.evm(base + Txs(s.included), tx);
            var eligible := && s.halt == Running && tx.sender !in s.marked && tx.hash !in prev
                            && Fits(ctx, s, tx) && !ctx.cancelled(|pool| - 1 - i)
                            && InBudget(verified, s, tx) && Unspent(s, tx) && outcome.Executed?;
            t.included == if eligible then s.included + [Included(tx, outcome.gasUsed, outcome.evmGasUsed)] else s.included
  {
    PassFollowsFates(ctx, base, prev, info, limit, bytes, pool, i);
  }

  /** The verified budget is the configured share of the gas limit, rounded down, unless the product leaves the
      machine word. */
  lemma BudgetIsShare(ctx: Ctx, limit: nat)
    requires ctx.capacity * limit < TWO_64
    ensures var verified := VerifiedGasLimit(ctx, limit);
            100 * verified <= ctx.capacity * limit < 100 * verified + 100
  {}

  /** The spend transaction is attempted exactly when there is something to spend, from the builder's account,
      and is part of the block exactly when it can be signed and executes; a signing failure fails the build. */
  lemma SpendHappensIff(ctx: Ctx, base: seq<Tx>, fill: Fill)
    ensures var out, txs := Finish(ctx, base, fill), base + Txs(fill.included);
            var signed := ctx.sign(txs, fill.spent);
            && (out.Stopped? <==> fill.halt == Cancelled)
            && (out.Error? <==> fill.halt == Failed || (fill.halt == Running && fill.spent != {} && signed.None?))
            && (out.Done? ==>
                  && out.fill == fill
                  && (out.spend.Some? ==> fill.spent != {} && out.spend.value.sender == ctx.builder && out.spend.value.nonce == ctx.builderNonce
                                          && out.spend.value.spends == fill.spent && out.spend.value.hash == signed.value.hash)
                  && (fill.spent != {} ==>
                        (out.spend.Some? <==> ctx.evm(txs, SpendTx(ctx, signed.value, fill.spent)).Executed?)))
  {}

  /** Fees only move when something from the pool is included. */
  lemma NothingIncludedNoFees(baseFee: nat, included: seq<Included>)
    ensures FeesPaid(baseFee, included) > 0 ==> included != []
  {}

  // ---------------------------------------------------------------------------------------------
  // The loop itself
  // ---------------------------------------------------------------------------------------------

  method InsertNullifiers(spent: set<Hash>, payloads: seq<Hash>) returns (result: set<Hash>, unseen: bool)
    ensures (result, unseen) == InsertAll(spent, payloads)
  {
    result, unseen := spent, true;
    var i := 0;
    while i < |payloads| && unseen
      invariant 0 <= i <= |payloads|
      invariant unseen ==> InsertAll(result, payloads[i..]) == InsertAll(spent, payloads)
      invariant !unseen ==> (result, false) == InsertAll(spent, payloads)
      decreases |payloads| - i, unseen
    {
      if payloads[i] in result {
        unseen := false;
      } else {
        result := result + {payloads[i]};
        assert payloads[i..][1..] == payloads[i + 1..];
        i := i + 1;
      }
    }
  }

  /** The guard around the pool iterator: advances past skipped entries, yields the first one that is
      neither committed already nor from a marked sender, and notes it as observed. */
  method NextTransaction(prev: set<Hash>, st: Fill, pool: seq<Tx>, from: nat, observed: seq<Hash>)
    returns (tx: Option<Tx>, pos: nat, seen: seq<Hash>)
    requires from <= |pool|
    ensures from <= pos <= |pool|
    ensures forall i :: from <= i < pos ==> Skipped(prev, st, pool[i])
    ensures if pos < |pool| then !Skipped(prev, st, pool[pos]) && tx == Some(pool[pos]) && seen == observed + [pool[pos].hash]
            else tx == None && seen == observed
  {
    pos := from;
    while pos < |pool|
      invariant from <= pos <= |pool|
      invariant forall i :: from <= i < pos ==> Skipped(prev, st, pool[i])
    {
      if pool[pos].sender !in st.marked && pool[pos].hash !in prev {
        return Some(pool[pos]), pos, observed + [pool[pos].hash];
      }
      pos := pos + 1;
    }
    tx, seen := None, observed;
  }

  lemma {:induction false} RunSkips(ctx: Ctx, verified: nat, base: seq<Tx>, prev: set<Hash>, st: Fill, pool: seq<Tx>, from: nat, to: nat)
    requires from <= to <= |pool|
    requires forall i :: from <= i < to ==> Skipped(prev, st, pool[i])
    ensures Run(ctx, verified, base, prev, st, pool[from..]) == Run(ctx, verified, base, prev, st, pool[to..])
    decreases |pool| - from
  {
    if from < to {
      assert pool[from..][1..] == pool[from + 1..];
      RunSkips(ctx, verified, base, prev, st, pool, from + 1, to);
    }
  }

  method ExecuteBestTransactions(ctx: Ctx, base: seq<Tx>, prev: set<Hash>, info: Info, limit: nat, bytes: nat, pool: seq<Tx>)
    returns (out: Outcome)
    ensures out == Finish(ctx, base, Filled(ctx, base, prev, info, limit, bytes, pool))
  {
    var verified := (ctx.capacity * limit) % TWO_64 / 100;
    var st := Start(info, limit, bytes);
    var pos, observed := 0, [];
    assert pool[0..] == pool;
    while pos < |pool| && st.halt == Running
      invariant 0 <= pos <= |pool|
      invariant Run(ctx, verified, base, prev, st, pool[pos..]) == Filled(ctx, base, prev, info, limit, bytes, pool)
    {
      st, pos, observed := Advance(ctx, verified, base, prev, st, pool, pos, observed);
    }
    out := SpendNullifiers(ctx, base, st);
  }

  /** One turn of the loop: fetch the next eligible transaction, if any, and consider it. */
  method Advance(ctx: Ctx, verified: nat, base: seq<Tx>, prev: set<Hash>, st: Fill, pool: seq<Tx>, from: nat, observed: seq<Hash>)
    returns (after: Fill, pos: nat, seen: seq<Hash>)
    requires from < |pool| && st.halt == Running
    ensures from < pos <= |pool|
    ensures Run(ctx, verified, base, prev, after, pool[pos..]) == Run(ctx, verified, base, prev, st, pool[from..])
  {
    var tx, at: nat;
    tx, at, seen := NextTransaction(prev, st, pool, from, observed);
    RunSkips(ctx, verified, base, prev, st, pool, from, at);
    if tx.Some? {
      after := ConsiderOne(ctx, verified, base, st, |pool| - at - 1, tx.value);
      assert pool[at..][1..] == pool[at + 1..];
      pos := at + 1;
    } else {
      after, pos := st, at;
    }
  }

  method ConsiderOne(ctx: Ctx, verified: nat, base: seq<Tx>, before: Fill, left: nat, tx: Tx) returns (st: Fill)
    ensures st == Consider(ctx, verified, base, before, left, tx)
  {
    st := before;
    var full := ctx.sizeLimit.Some? && st.bytes + tx.size > ctx.sizeLimit.value;
    if full || ctx.overLimits(st.info, st.limit, tx) || tx.blob || tx.deposit {
      st := st.(marked := st.marked + {tx.sender});
      return;
    }
    if ctx.cancelled(left) {
      st := st.(halt := Cancelled);
      return;
    }
    if tx.pbh.Some? {
      if st.info.gas + tx.gasLimit > verified {
        st := st.(marked := st.marked + {tx.sender});
        return;
      }
      var spent, unseen := InsertNullifiers(st.spent, tx.pbh.value);
      st := st.(spent := spent);
      if !unseen {
        st := st.(marked := st.marked + {tx.sender}, rejected := st.rejected + [tx.hash]);
        return;
      }
    }
    st := ExecuteOne(ctx, base, st, tx);
  }

  method ExecuteOne(ctx: Ctx, base: seq<Tx>, st: Fill, tx: Tx) returns (after: Fill)
    ensures after == Execute(ctx, base, st, tx)
  {
    match ctx.evm(base + Txs(st.included), tx)
    case Executed(gasUsed, evmGasUsed) =>
      var limit := st.limit;
      if tx.pbh.Some? {
        if |st.spent| == |tx.pbh.value| { limit := Sub64(limit, FIXED_GAS); }
        limit := Sub64(limit, COLD_SSTORE_GAS * |tx.pbh.value|);
      }
      after := st.(info := Commit(ctx.baseFee, st.info, tx, tx.daSize, gasUsed, evmGasUsed), limit := limit,
                   bytes := st.bytes + tx.size, included := st.included + [Included(tx, gasUsed, evmGasUsed)]);
    case NonceTooLow => after := st;
    case Invalid => after := st.(marked := st.marked + {tx.sender});
    case FatalError => after := st.(halt := Failed);
  }

  method SpendNullifiers(ctx: Ctx, base: seq<Tx>, fill: Fill) returns (out: Outcome)
    ensures out == Finish(ctx, base, fill)
  {
    if fill.halt == Cancelled { return Stopped; }
    if fill.halt == Failed { return Error; }
    var txs := base + Txs(fill.included);
    if fill.spent == {} { return Done(fill.info, txs, fill, None); }
    var signed := ctx.sign(txs, fill.spent);
    if signed.None? { return Error; }
    var tx := SpendTx(ctx, signed.value, fill.spent);
    var res := ctx.evm(txs, tx);
    if res.Executed? {
      out := Done(Commit(ctx.baseFee, fill.info, tx, tx.daSize, res.gasUsed, res.evmGasUsed), txs + [tx], fill, Some(tx));
    } else {
      out := Done(fill.info, txs, fill, None);
    }
  }
}
