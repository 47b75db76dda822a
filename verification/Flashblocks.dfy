/** Flashblocks of one payload id: the published increments, their reduction into one block and the
    coordinator that keeps them (crates/primitives/src/flashblocks.rs,
    crates/validator/src/coordinator.rs, crates/payload/src/generator.rs). */
module Flashblocks {
  import opened Wrappers
  import opened Transactions
  import opened Payloads

  /** The first flashblock of a payload id carries the base, represented by its timestamp. */
  datatype Flashblock = Flashblock(index: nat, base: Option<nat>, hash: Hash, txs: seq<Tx>, withdrawals: seq<Withdrawal>,
                                   gasUsed: nat, fees: nat, accessList: Option<AccessList>)

  /** `Iterator::skip`: past the end nothing is left. */
  function Skip<T>(s: seq<T>, n: nat): seq<T> {
    if n <= |s| then s[n..] else []
  }

  /** The increment of `p` over the previously committed payload. */
  function Increment(cfg: Config, p: Payload, prev: Option<Payload>, index: nat, accessList: Option<AccessList>): Flashblock {
    var txOffset := if prev.Some? then |prev.value.block.txs| else 0;
    var withdrawalOffset := if prev.Some? then |prev.value.block.withdrawals| else 0;
    Flashblock(index, if index == 0 then Some(cfg.timestamp) else None, p.hash, Skip(p.block.txs, txOffset), Skip(p.block.withdrawals, withdrawalOffset),
               p.block.gasUsed, p.fees, accessList)
  }

  function Merge(acc: Flashblock, next: Flashblock): Flashblock {
    Flashblock(next.index, if acc.base.None? then next.base else acc.base, next.hash, acc.txs + next.txs, acc.withdrawals + next.withdrawals,
               next.gasUsed, next.fees, acc.accessList)
  }

  function Reduce(fbs: seq<Flashblock>): Option<Flashblock> {
    if fbs == [] then None
    else if |fbs| == 1 then Some(fbs[0])
    else Some(Merge(Reduce(fbs[..|fbs| - 1]).value, fbs[|fbs| - 1]))
  }

  method ReduceFlashblocks(fbs: seq<Flashblock>) returns (r: Option<Flashblock>)
    ensures r == Reduce(fbs)
  {
    if |fbs| == 0 { return None; }
    var acc := fbs[0];
    assert fbs[..1] == [fbs[0]];
    for i := 1 to |fbs|
      invariant Some(acc) == Reduce(fbs[..i])
    {
      assert fbs[..i + 1][..i] == fbs[..i];
      var next := fbs[i];
      var base := acc.base;
      if acc.base.None? && next.base.Some? { base := next.base; }
      acc := acc.(index := next.index, base := base, fees := next.fees, gasUsed := next.gasUsed,
                  txs := acc.txs + next.txs, withdrawals := acc.withdrawals + next.withdrawals, hash := next.hash);
    }
    assert fbs[..|fbs|] == fbs;
    r := Some(acc);
  }

  function TxsOf(fbs: seq<Flashblock>): seq<Tx> {
    if fbs == [] then [] else TxsOf(fbs[..|fbs| - 1]) + fbs[|fbs| - 1].txs
  }

  function WithdrawalsOf(fbs: seq<Flashblock>): seq<Withdrawal> {
    if fbs == [] then [] else WithdrawalsOf(fbs[..|fbs| - 1]) + fbs[|fbs| - 1].withdrawals
  }

  /** Reduction concatenates the increments and otherwise keeps the last flashblock's fields, except
      for the access list, which is the first flashblock's. */
  lemma {:induction false} ReduceIsConcatenation(fbs: seq<Flashblock>)
    requires fbs != []
    ensures var last, r := fbs[|fbs| - 1], Reduce(fbs).value;
            && r.txs == TxsOf(fbs) && r.withdrawals == WithdrawalsOf(fbs)
            && r.index == last.index && r.hash == last.hash && r.gasUsed == last.gasUsed && r.fees == last.fees
            && r.accessList == fbs[0].accessList && (fbs[0].base.Some? ==> r.base == fbs[0].base)
  {
    if |fbs| > 1 {
      ReduceIsConcatenation(fbs[..|fbs| - 1]);
    } else {
      assert fbs[..0] == [];
    }
  }

  // ---------------------------------------------------------------------------------------------
  // Coordinator
  // ---------------------------------------------------------------------------------------------

  /** `accepted` is the coordinator's list for the current payload id, empty while it still holds another
      payload, whose base timestamp is `held`; `sent` is what reached the peer-to-peer layer. */
  datatype Coordinator = Coordinator(accepted: seq<Flashblock>, sent: seq<Flashblock>, latest: Option<Payload>, held: nat)

  /** `Flashblocks::push`: a flashblock of another payload id must be the first of its own, carry a base, and
      be later than the base held; otherwise its index must be contiguous. */
  predicate Accepts(c: Coordinator, fb: Flashblock) {
    if c.accepted == [] then fb.index == 0 && fb.base.Some? && fb.base.value > c.held
    else fb.index == |c.accepted|
  }

  /** `publish_built_payload`: a flashblock that is not accepted is an error before anything changes; a
      network error comes after the flashblock was recorded. */
  function Publish(c: Coordinator, fb: Flashblock, p: Payload, signer: bool, network: bool): Coordinator {
    if !signer || !Accepts(c, fb) then c
    else Coordinator(c.accepted + [fb], if network then c.sent + [fb] else c.sent, Some(p), c.held)
  }

  datatype PreState = PreState(payload: Payload, index: nat, accessList: Option<AccessList>)

  function FirstWithHash(fbs: seq<Flashblock>, hash: Hash): (pos: nat)
    ensures pos <= |fbs|
    ensures forall i :: 0 <= i < pos ==> fbs[i].hash != hash
    ensures pos < |fbs| ==> fbs[pos].hash == hash
  {
    if fbs == [] || fbs[0].hash == hash then 0
    else
      var rest := FirstWithHash(fbs[1..], hash);
      assert forall i :: 0 < i < rest + 1 ==> fbs[i] == fbs[1..][i - 1];
      rest + 1
  }

  /** The payload and flashblock index a new job for the same payload id takes over; a latest payload
      without its flashblock is an error. */
  function CheckForPreState(c: Coordinator): Result<Option<PreState>, string> {
    if c.latest.None? then Success(None)
    else
      var pos := FirstWithHash(c.accepted, c.latest.value.hash);
      if pos == |c.accepted| then Failure("no flashblock matching payload hash")
      else
        var composed := Reduce(c.accepted[..pos + 1]).value;
        Success(Some(PreState(c.latest.value, composed.index + 1, composed.accessList)))
  }

  method CheckForPreStateLoop(c: Coordinator) returns (r: Result<Option<PreState>, string>)
    ensures r == CheckForPreState(c)
  {
    if c.latest.None? { return Success(None); }
    var pos := 0;
    while pos < |c.accepted| && c.accepted[pos].hash != c.latest.value.hash
      invariant 0 <= pos <= |c.accepted|
      invariant forall i :: 0 <= i < pos ==> c.accepted[i].hash != c.latest.value.hash
    {
      pos := pos + 1;
    }
    assert pos == FirstWithHash(c.accepted, c.latest.value.hash);
    if pos == |c.accepted| { return Failure("no flashblock matching payload hash"); }
    var composed := ReduceFlashblocks(c.accepted[..pos + 1]);
    r := Success(Some(PreState(c.latest.value, composed.value.index + 1, composed.value.accessList)));
  }

  /** The flashblock at `k` carries index `k`, its hash names the block of the prefix it completes,
      and its increment is non-empty unless it is the first. */
  predicate Faithful(cfg: Config, fbs: seq<Flashblock>, k: nat)
    requires k < |fbs|
  {
    && fbs[k].index == k
    && cfg.blockOf(fbs[k].hash).txs == TxsOf(fbs[..k + 1])
    && (k > 0 ==> fbs[k].txs != [])
  }

  /** The coordinator's list reproduces `committed`. */
  predicate Reproduces(cfg: Config, c: Coordinator, committed: Option<Payload>) {
    && (forall k :: 0 <= k < |c.accepted| ==> Faithful(cfg, c.accepted, k))
    && c.latest == committed
    && (c.accepted == [] <==> committed == None)
    && (committed.Some? ==>
          && c.accepted[|c.accepted| - 1].hash == committed.value.hash
          && c.accepted[|c.accepted| - 1].gasUsed == committed.value.block.gasUsed
          && c.accepted[|c.accepted| - 1].fees == committed.value.fees
          && TxsOf(c.accepted) == committed.value.block.txs
          && WithdrawalsOf(c.accepted) == committed.value.block.withdrawals)
  }

  lemma {:induction false} PrefixesGrow(cfg: Config, fbs: seq<Flashblock>, i: nat, j: nat)
    requires forall k :: 0 <= k < |fbs| ==> Faithful(cfg, fbs, k)
    requires i < j < |fbs|
    ensures |TxsOf(fbs[..i + 1])| < |TxsOf(fbs[..j + 1])|
  {
    assert fbs[..j + 1][..j] == fbs[..j];
    assert Faithful(cfg, fbs, j);
    if i + 1 < j {
      PrefixesGrow(cfg, fbs, i, j - 1);
    }
  }

  /** A builder that takes over a payload id resumes from exactly the committed payload and the next
      flashblock index of its predecessor. */
  lemma TakeoverResumes(cfg: Config, c: Coordinator, committed: Option<Payload>)
    requires Reproduces(cfg, c, committed)
    ensures committed.None? ==> CheckForPreState(c) == Success(None)
    ensures committed.Some? ==>
              CheckForPreState(c) == Success(Some(PreState(committed.value, |c.accepted|, c.accepted[0].accessList)))
  {
    if committed.Some? {
      var n := |c.accepted|;
      var pos := FirstWithHash(c.accepted, committed.value.hash);
      assert pos == n - 1 by {
        assert Faithful(cfg, c.accepted, n - 1) && Faithful(cfg, c.accepted, pos);
        if pos < n - 1 {
          PrefixesGrow(cfg, c.accepted, pos, n - 1);
        }
      }
      assert c.accepted[..pos + 1] == c.accepted;
      ReduceIsConcatenation(c.accepted);
      assert Faithful(cfg, c.accepted, n - 1);
    }
  }

  lemma AppendFaithful(cfg: Config, fbs: seq<Flashblock>, fb: Flashblock)
    requires forall k :: 0 <= k < |fbs| ==> Faithful(cfg, fbs, k)
    requires fb.index == |fbs| && cfg.blockOf(fb.hash).txs == TxsOf(fbs) + fb.txs && (fbs != [] ==> fb.txs != [])
    ensures forall k :: 0 <= k < |fbs + [fb]| ==> Faithful(cfg, fbs + [fb], k)
  {
    var all := fbs + [fb];
    forall k | 0 <= k < |all| ensures Faithful(cfg, all, k) {
      if k < |fbs| {
        assert Faithful(cfg, fbs, k);
        assert all[..k + 1] == fbs[..k + 1];
      } else {
        assert all[..k + 1] == all && all[..k] == fbs;
      }
    }
  }

  lemma RecordReproduces(cfg: Config, c: Coordinator, fb: Flashblock, p: Payload, network: bool)
    requires forall k :: 0 <= k < |c.accepted| ==> Faithful(cfg, c.accepted, k)
    requires fb.gasUsed == p.block.gasUsed && fb.fees == p.fees
    requires Accepts(c, fb) && fb.hash == p.hash && cfg.blockOf(p.hash) == p.block && (c.accepted != [] ==> fb.txs != [])
    requires TxsOf(c.accepted) + fb.txs == p.block.txs && WithdrawalsOf(c.accepted) + fb.withdrawals == p.block.withdrawals
    ensures Reproduces(cfg, Publish(c, fb, p, true, network), Some(p))
  {
    AppendFaithful(cfg, c.accepted, fb);
    assert (c.accepted + [fb])[..|c.accepted|] == c.accepted;
  }

  /** Recording the increment of a payload that extends the committed one keeps the list faithful. */
  lemma AcceptIncrement(cfg: Config, c: Coordinator, committed: Option<Payload>, p: Payload, accessList: Option<AccessList>, network: bool)
    requires Reproduces(cfg, c, committed) && (c.accepted == [] ==> cfg.timestamp > c.held)
    requires WellFormed(cfg, p)
    requires committed.Some? ==> Extends(committed.value, p) && |committed.value.block.txs| < |p.block.txs|
    ensures Reproduces(cfg, Publish(c, Increment(cfg, p, committed, |c.accepted|, accessList), p, true, network), Some(p))
  {
    var fb := Increment(cfg, p, committed, |c.accepted|, accessList);
    assert TxsOf(c.accepted) + fb.txs == p.block.txs;
    assert WithdrawalsOf(c.accepted) + fb.withdrawals == p.block.withdrawals;
    RecordReproduces(cfg, c, fb, p, network);
  }
}
