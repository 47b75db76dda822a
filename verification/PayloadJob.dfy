/** The flashblock payload job of crates/payload/src/job.rs as a state machine: every poll branch is a
    step whose timers, publish results and build results are chosen by the environment. */
module PayloadJob {
  import opened Wrappers
  import opened Transactions
  import opened Payloads
  import opened Flashblocks

  datatype Best = Missing | Candidate(payload: Payload) | Frozen(payload: Payload)

  datatype Committed = Empty | Confirmed(payload: Payload, accessList: Option<AccessList>, frozen: bool)

  datatype Job = Job(best: Best, bestList: Option<AccessList>, committed: Committed, pending: Option<Build>,
                     index: nat, net: Coordinator)

  function BestPayload(job: Job): Option<Payload> {
    if job.best.Missing? then None else Some(job.best.payload)
  }

  function CommittedPayload(job: Job): Option<Payload> {
    if job.committed.Empty? then None else Some(job.committed.payload)
  }

  function CommittedTxs(job: Job): seq<Tx> {
    if job.committed.Empty? then [] else job.committed.payload.block.txs
  }

  function CommittedWithdrawals(job: Job): seq<Withdrawal> {
    if job.committed.Empty? then [] else job.committed.payload.block.withdrawals
  }

  predicate SameAsCommitted(job: Job, p: Payload) {
    job.committed.Confirmed? && job.committed.payload.hash == p.hash
  }

  // ---------------------------------------------------------------------------------------------
  // Steps
  // ---------------------------------------------------------------------------------------------

  function Spawn(job: Job): Job {
    job.(pending := Some(Build(CommittedPayload(job), BestPayload(job))))
  }

  /** What one poll observes: which timers are ready, whether signing and sending a flashblock would
      succeed, and the pending build's result if it is ready (`Failure` for a failed build). */
  datatype Tick = Tick(deadline: bool, recommit: bool, clearance: bool, signer: bool, network: bool,
                       result: Option<Result<Outcome, string>>)

  function Recommit(job: Job, t: Tick): Job {
    if t.recommit && !job.best.Frozen? && job.pending.None? then Spawn(job) else job
  }

  function Commit(cfg: Config, job: Job, t: Tick): Job {
    if !t.clearance || !job.best.Candidate? then job
    else
      var p := job.best.payload;
      if SameAsCommitted(job, p) then Spawn(job)
      else
        var fb := Increment(cfg, p, CommittedPayload(job), job.index, job.bestList);
        var net := if cfg.authorized then Publish(job.net, fb, p, t.signer, t.network) else job.net;
        Spawn(job.(net := net, committed := Confirmed(p, job.bestList, false), index := job.index + 1))
  }

  function Receive(job: Job, result: Option<Result<Outcome, string>>): Job {
    if job.pending.None? || result.None? then job
    else
      var idle := job.(pending := None);
      match result.value
      case Failure(_) => idle
      case Success(outcome) =>
        match outcome
        case Better(p, list) =>
          if SameAsCommitted(job, p) then idle else idle.(best := Candidate(p), bestList := list)
        case Freeze(p, list) =>
          var committed := if SameAsCommitted(job, p) then job.committed else Confirmed(p, list, true);
          idle.(committed := committed, best := Frozen(p), bestList := list)
        case _ => idle
  }

  function BeforeReceive(cfg: Config, job: Job, t: Tick): Job {
    Commit(cfg, Recommit(job, t), t)
  }

  function Poll(cfg: Config, job: Job, t: Tick): Job {
    if t.deadline then job else Receive(BeforeReceive(cfg, job, t), t.result)
  }

  /** The result observed by a poll belongs to the build pending when the poll reaches it. */
  predicate Legal(cfg: Config, job: Job, t: Tick) {
    var mid := BeforeReceive(cfg, job, t);
    !t.deadline && mid.pending.Some? && t.result.Some? && t.result.value.Success? ==>
      Honest(cfg, mid.pending.value, t.result.value.value)
  }

  datatype MissingPayload = AwaitInProgress | RaceEmptyPayload | RacePayload

  /** The future handed to the consensus client; `race` stands for an empty or fallback payload. */
  datatype Future = Future(best: Option<Payload>, maybeBetter: Option<Build>, race: bool)

  function Resolve(cfg: Config, job: Job, missing: MissingPayload, waitForPending: bool): (Job, Future) {
    var started := if job.committed.Empty? && job.pending.None? then Spawn(job) else job;
    var take := cfg.noTxPool || (started.committed.Empty? && missing == AwaitInProgress);
    var race := started.committed.Empty? && missing != AwaitInProgress && !waitForPending;
    (if take then started.(pending := None) else started,
     Future(CommittedPayload(started), if take then started.pending else None, race))
  }

  /** The payload the future yields: a ready better build first, then the committed payload, then
      whatever was raced. */
  function Deliver(future: Future, ready: Option<Result<Outcome, string>>, raced: Option<Payload>): Option<Payload> {
    if future.maybeBetter.Some? && ready.Some? && ready.value.Success?
       && (ready.value.value.Better? || ready.value.value.Freeze?) then Some(ready.value.value.payload)
    else if future.best.Some? then future.best
    else if future.race then raced
    else None
  }

  datatype Event = Polled(tick: Tick) | Resolved(missing: MissingPayload, waitForPending: bool)

  predicate LegalEvent(cfg: Config, job: Job, e: Event) {
    e.Polled? ==> Legal(cfg, job, e.tick)
  }

  function Next(cfg: Config, job: Job, e: Event): Job {
    match e
    case Polled(t) => Poll(cfg, job, t)
    case Resolved(missing, wait) => Resolve(cfg, job, missing, wait).0
  }

  function Run(cfg: Config, job: Job, events: seq<Event>): Job
    decreases |events|
  {
    if events == [] then job else Run(cfg, Next(cfg, job, events[0]), events[1..])
  }

  predicate LegalRun(cfg: Config, job: Job, events: seq<Event>)
    decreases |events|
  {
    events != [] ==> LegalEvent(cfg, job, events[0]) && LegalRun(cfg, Next(cfg, job, events[0]), events[1..])
  }

  /** A new job: fresh, or resuming from the coordinator's pre-confirmed payload, which starts out as
      a frozen best payload; the first build is spawned right away. */
  function NewJob(net: Coordinator, pre: Option<PreState>): Job {
    Spawn(match pre
          case None => Job(Missing, None, Empty, None, 0, net)
          case Some(s) => Job(Frozen(s.payload), s.accessList, Confirmed(s.payload, s.accessList, true), None, s.index, net))
  }

  /** Induction over runs. */
  lemma {:induction false} RunInduction(cfg: Config, job: Job, events: seq<Event>, inv: Job -> bool, ok: Event -> bool)
    requires inv(job) && LegalRun(cfg, job, events)
    requires forall e :: e in events ==> ok(e)
    requires forall j, e :: inv(j) && ok(e) && LegalEvent(cfg, j, e) ==> inv(Next(cfg, j, e))
    ensures inv(Run(cfg, job, events))
    decreases |events|
  {
    if events != [] {
      assert ok(events[0]);
      RunInduction(cfg, Next(cfg, job, events[0]), events[1..], inv, ok);
    }
  }

  // ---------------------------------------------------------------------------------------------
  // The invariant of every interleaving
  // ---------------------------------------------------------------------------------------------

  /** A pending build starts from the current committed and best payloads. */
  predicate PendingIsCurrent(job: Job) {
    job.pending.Some? ==> job.pending.value == Build(CommittedPayload(job), BestPayload(job))
  }

  /** The best payload is missing, the committed one, or a strictly more valuable extension of it. */
  predicate BestExtendsCommitted(cfg: Config, job: Job) {
    && (job.best.Missing? ==> job.committed.Empty?)
    && (job.best.Missing? || WellFormed(cfg, job.best.payload))
    && (job.committed.Confirmed? ==>
          var c, b := job.committed.payload, job.best.payload;
          && WellFormed(cfg, c)
          && (b == c || (b.hash != c.hash && Extends(c, b) && c.fees < b.fees
                         && |c.block.txs| < |b.block.txs| && !cfg.noTxPool)))
  }

  predicate Inv(cfg: Config, job: Job) {
    && PendingIsCurrent(job)
    && BestExtendsCommitted(cfg, job)
    && (job.best.Frozen? ==> CommittedPayload(job) == BestPayload(job))
    && (cfg.noTxPool ==> !job.best.Candidate?)
  }

  lemma NewJobInv(cfg: Config, net: Coordinator, pre: Option<PreState>)
    requires pre.Some? ==> WellFormed(cfg, pre.value.payload)
    ensures Inv(cfg, NewJob(net, pre))
  {}

  lemma BeforeReceiveInv(cfg: Config, job: Job, t: Tick)
    requires Inv(cfg, job)
    ensures Inv(cfg, BeforeReceive(cfg, job, t))
  {}

  lemma ReceiveInv(cfg: Config, job: Job, result: Option<Result<Outcome, string>>)
    requires Inv(cfg, job)
    requires job.pending.Some? && result.Some? && result.value.Success? ==> Honest(cfg, job.pending.value, result.value.value)
    ensures Inv(cfg, Receive(job, result))
  {}

  lemma NextInv(cfg: Config, job: Job, e: Event)
    requires Inv(cfg, job) && LegalEvent(cfg, job, e)
    ensures Inv(cfg, Next(cfg, job, e))
  {
    match e
    case Polled(t) =>
      if !t.deadline {
        BeforeReceiveInv(cfg, job, t);
        ReceiveInv(cfg, BeforeReceive(cfg, job, t), t.result);
      }
    case Resolved(missing, wait) =>
  }

  /** In every interleaving of ticks, build results and resolves, a pending build's base is the
      current committed payload and the best payload is missing, committed, or a strict extension. */
  lemma EveryRunKeepsInv(cfg: Config, job: Job, events: seq<Event>)
    requires Inv(cfg, job) && LegalRun(cfg, job, events)
    ensures Inv(cfg, Run(cfg, job, events))
  {
    forall j, e | Inv(cfg, j) && LegalEvent(cfg, j, e) ensures Inv(cfg, Next(cfg, j, e)) {
      NextInv(cfg, j, e);
    }
    RunInduction(cfg, job, events, j => Inv(cfg, j), e => true);
  }

  // ---------------------------------------------------------------------------------------------
  // Pre-confirmations are never withdrawn
  // ---------------------------------------------------------------------------------------------

  predicate Grew(before: Job, after: Job) {
    before.committed.Confirmed? ==>
      after.committed.Confirmed? && Extends(before.committed.payload, after.committed.payload)
  }

  lemma CommitGrows(cfg: Config, job: Job, t: Tick)
    requires Inv(cfg, job)
    ensures Grew(job, BeforeReceive(cfg, job, t))
  {}

  lemma ReceiveGrows(cfg: Config, job: Job, result: Option<Result<Outcome, string>>)
    requires Inv(cfg, job)
    requires job.pending.Some? && result.Some? && result.value.Success? ==> Honest(cfg, job.pending.value, result.value.value)
    ensures Grew(job, Receive(job, result))
  {}

  lemma NextGrows(cfg: Config, job: Job, e: Event)
    requires Inv(cfg, job) && LegalEvent(cfg, job, e)
    ensures Grew(job, Next(cfg, job, e))
  {
    if e.Polled? && !e.tick.deadline {
      BeforeReceiveInv(cfg, job, e.tick);
      CommitGrows(cfg, job, e.tick);
      ReceiveGrows(cfg, BeforeReceive(cfg, job, e.tick), e.tick.result);
    }
  }

  /** Along every run, in every mode, the committed payload only ever grows: transactions and
      withdrawals keep their prefix and committed fees never fall. */
  lemma EveryRunGrows(cfg: Config, job: Job, events: seq<Event>)
    requires Inv(cfg, job) && LegalRun(cfg, job, events)
    ensures Grew(job, Run(cfg, job, events))
  {
    forall j, e | Inv(cfg, j) && Grew(job, j) && LegalEvent(cfg, j, e)
      ensures Inv(cfg, Next(cfg, j, e)) && Grew(job, Next(cfg, j, e))
    {
      NextInv(cfg, j, e);
      NextGrows(cfg, j, e);
    }
    RunInduction(cfg, job, events, j => Inv(cfg, j) && Grew(job, j), e => true);
  }

  /** Whatever is finally handed to the consensus client, in any mode and for any scheduling of the
      resolve future, extends the payload committed at any earlier moment of the run. */
  lemma DeliveredExtendsCommitted(cfg: Config, job: Job, events: seq<Event>, missing: MissingPayload, wait: bool,
                                  ready: Option<Result<Outcome, string>>, raced: Option<Payload>)
    requires Inv(cfg, job) && LegalRun(cfg, job, events)
    requires var future := Resolve(cfg, Run(cfg, job, events), missing, wait).1;
             future.maybeBetter.Some? && ready.Some? && ready.value.Success? ==>
               Honest(cfg, future.maybeBetter.value, ready.value.value)
    ensures var delivered := Deliver(Resolve(cfg, Run(cfg, job, events), missing, wait).1, ready, raced);
            job.committed.Confirmed? ==> delivered.Some? && Extends(job.committed.payload, delivered.value)
  {
    EveryRunKeepsInv(cfg, job, events);
    EveryRunGrows(cfg, job, events);
  }

  /** In pool mode the resolve future of a job with a committed payload yields exactly that payload. */
  lemma PoolModeDeliversCommitted(cfg: Config, job: Job, missing: MissingPayload, wait: bool,
                                  ready: Option<Result<Outcome, string>>, raced: Option<Payload>)
    requires !cfg.noTxPool && job.committed.Confirmed?
    ensures Resolve(cfg, job, missing, wait).0 == job
    ensures Deliver(Resolve(cfg, job, missing, wait).1, ready, raced) == Some(job.committed.payload)
  {}

  /** The build is ready with a payload. */
  predicate Usable(ready: Option<Result<Outcome, string>>) {
    ready.Some? && ready.value.Success? && !ready.value.value.Aborted? && !ready.value.value.Cancelled?
  }

  /** What a resolve hands over before anything is committed: the build that was pending, or one spawned on the
      current payloads. Awaiting it leaves nothing pending, whether or not the caller waits, and its payload is
      what is delivered. Racing keeps it pending in pool mode, and delivers the raced payload exactly if the
      caller does not wait. */
  lemma UncommittedResolve(cfg: Config, job: Job, missing: MissingPayload, wait: bool)
    requires job.committed.Empty?
    ensures var (after, future) := Resolve(cfg, job, missing, wait);
            var build := if job.pending.Some? then job.pending.value else Build(None, BestPayload(job));
            var handed := missing == AwaitInProgress || cfg.noTxPool;
            && after == job.(pending := if handed then None else Some(build))
            && future.maybeBetter == (if handed then Some(build) else None)
            && (forall p, list, raced :: handed ==> Deliver(future, Some(Success(Better(p, list))), raced) == Some(p))
            && (forall p, list, raced :: handed ==> Deliver(future, Some(Success(Freeze(p, list))), raced) == Some(p))
            && (forall ready, raced :: !Usable(ready) ==>
                  Deliver(future, ready, raced) == if missing == AwaitInProgress || wait then None else raced)
            && (forall ready, raced :: !handed ==> Deliver(future, ready, raced) == if wait then None else raced)
  {}

  /** In no-pool mode a resolve hands over the pending build even when a payload is committed, and delivers its
      payload if it is ready and the committed one otherwise. */
  lemma NoPoolResolve(cfg: Config, job: Job, missing: MissingPayload, wait: bool)
    requires cfg.noTxPool && job.committed.Confirmed?
    ensures var (after, future) := Resolve(cfg, job, missing, wait);
            && after == job.(pending := None)
            && future.maybeBetter == job.pending
            && (forall p, list, raced :: job.pending.Some? ==>
                  Deliver(future, Some(Success(Better(p, list))), raced) == Some(p)
                  && Deliver(future, Some(Success(Freeze(p, list))), raced) == Some(p))
            && (forall ready, raced :: !Usable(ready) ==> Deliver(future, ready, raced) == Some(job.committed.payload))
  {}

  // ---------------------------------------------------------------------------------------------
  // Progress
  // ---------------------------------------------------------------------------------------------

  function Quiet(result: Option<Result<Outcome, string>>): Event {
    Polled(Tick(false, false, false, false, false, result))
  }

  /** After the deadline nothing moves. */
  lemma DeadlineFreezesJob(cfg: Config, job: Job, t: Tick)
    requires t.deadline
    ensures Poll(cfg, job, t) == job
  {}

  /** A new job builds right away: from nothing, or from the payload pre-confirmed by the previous builder, which
      it holds as committed and will not rebuild on its own. */
  lemma NewJobBuilds(net: Coordinator, pre: Option<PreState>)
    ensures var job := NewJob(net, pre);
            && job.net == net
            && (pre.None? ==> job.best == Missing && job.committed == Empty && job.index == 0 && job.pending == Some(Build(None, None)))
            && (pre.Some? ==>
                  var p := pre.value.payload;
                  && job.best == Frozen(p) && job.bestList == pre.value.accessList && job.index == pre.value.index
                  && job.committed == Confirmed(p, pre.value.accessList, true) && job.pending == Some(Build(Some(p), Some(p))))
  {}

  /** A build in progress is left alone until its result is ready or a candidate is committed. */
  lemma PendingBuildIsKept(cfg: Config, job: Job, t: Tick)
    requires job.pending.Some? && t.result.None? && (!t.clearance || !job.best.Candidate?)
    ensures Poll(cfg, job, t) == job
  {}

  /** A poll whose flashblock interval has passed commits the candidate, once, publishes it if it can be
      recorded, and always starts a build on it. */
  lemma ClearanceCommits(cfg: Config, job: Job, t: Tick)
    requires !t.deadline && t.clearance && t.result.None? && job.best.Candidate?
    ensures var after, p := Poll(cfg, job, t), job.best.payload;
            && after.best == job.best && after.bestList == job.bestList
            && after.committed.Confirmed? && after.committed.payload.hash == p.hash
            && after.pending == Some(Build(Some(after.committed.payload), Some(p)))
            && (SameAsCommitted(job, p) ==> after.committed == job.committed && after.index == job.index && after.net == job.net)
            && (!SameAsCommitted(job, p) ==>
                  && after.committed == Confirmed(p, job.bestList, false) && after.index == job.index + 1
                  && (cfg.authorized && InStep(job) && Recordable(cfg, job, t) ==>
                        && |after.net.accepted| == job.index + 1 && after.net.latest == Some(p)
                        && var fb := after.net.accepted[job.index];
                           && fb.accessList == job.bestList
                           && fb.base == (if job.index == 0 then Some(cfg.timestamp) else None)
                           && after.net.sent == if t.network then job.net.sent + [fb] else job.net.sent))
  {}

  /** A better result becomes the best payload and waits for the next interval; nothing else changes. */
  lemma BetterIsTaken(cfg: Config, job: Job, p: Payload, list: Option<AccessList>)
    requires job.pending.Some?
    ensures Next(cfg, job, Quiet(Some(Success(Better(p, list)))))
            == if SameAsCommitted(job, p) then job.(pending := None)
               else job.(pending := None, best := Candidate(p), bestList := list)
  {}

  /** A freeze is committed and becomes the best payload. */
  lemma FreezeIsTaken(cfg: Config, job: Job, p: Payload, list: Option<AccessList>)
    requires job.pending.Some?
    ensures var after := Next(cfg, job, Quiet(Some(Success(Freeze(p, list)))));
            && after.best == Frozen(p) && after.bestList == list && after.pending == None
            && after.index == job.index && after.net == job.net
            && after.committed == if SameAsCommitted(job, p) then job.committed else Confirmed(p, list, true)
  {}

  /** A failed or aborted build leaves the payloads alone, and the next recommit interval builds again on the
      current ones, unless the best payload is frozen. */
  lemma FailedBuildIsRetried(cfg: Config, job: Job, result: Result<Outcome, string>)
    requires job.pending.Some? && (result.Failure? || result.value.Aborted?)
    ensures var idle := Next(cfg, job, Quiet(Some(result)));
            var retried := Next(cfg, idle, Polled(Tick(false, true, false, false, false, None)));
            && idle == job.(pending := None)
            && retried == if job.best.Frozen? then idle else job.(pending := Some(Build(CommittedPayload(job), BestPayload(job))))
  {}

  /** A better build is delivered: whatever the state of a pool-mode job with a build pending, once the build has
      returned a new payload and the flashblock interval has passed, that payload is committed, further builds
      start from it, and it is what a resolve delivers. */
  lemma BetterBuildIsDelivered(cfg: Config, job: Job, p: Payload, list: Option<AccessList>, signer: bool, network: bool,
                               missing: MissingPayload, wait: bool, ready: Option<Result<Outcome, string>>, raced: Option<Payload>)
    requires !cfg.noTxPool && job.pending.Some? && !SameAsCommitted(job, p)
    ensures var end := Run(cfg, job, [Quiet(Some(Success(Better(p, list)))), Polled(Tick(false, false, true, signer, network, None))]);
            && end.committed == Confirmed(p, list, false) && end.index == job.index + 1
            && end.pending == Some(Build(Some(p), Some(p)))
            && Deliver(Resolve(cfg, end, missing, wait).1, ready, raced) == Some(p)
  {
    var first, second := Quiet(Some(Success(Better(p, list)))), Polled(Tick(false, false, true, signer, network, None));
    var taken := Next(cfg, job, first);
    BetterIsTaken(cfg, job, p, list);
    ClearanceCommits(cfg, taken, second.tick);
    assert [first, second][1..] == [second] && [second][1..] == [];
    var end := Next(cfg, taken, second);
    assert Run(cfg, taken, [second]) == Run(cfg, end, []);
    PoolModeDeliversCommitted(cfg, end, missing, wait, ready, raced);
  }

  // ---------------------------------------------------------------------------------------------
  // Fees
  // ---------------------------------------------------------------------------------------------

  /** A poll lowers the best payload's fees exactly when it receives a freeze of the committed payload
      while a more valuable candidate was waiting. */
  predicate DropsCandidate(cfg: Config, job: Job, e: Event) {
    && e.Polled? && !e.tick.deadline
    && var mid := BeforeReceive(cfg, job, e.tick);
       && mid.pending.Some? && e.tick.result.Some? && e.tick.result.value.Success?
       && e.tick.result.value.value.Freeze?
       && mid.committed.Confirmed? && !mid.best.Missing? && mid.committed.payload.fees < mid.best.payload.fees
  }

  predicate BestFeesFall(before: Job, after: Job) {
    before.best != Missing && (after.best.Missing? || after.best.payload.fees < before.best.payload.fees)
  }

  lemma BestFeesFallOnlyAtFreeze(cfg: Config, job: Job, e: Event)
    requires Inv(cfg, job) && LegalEvent(cfg, job, e)
    ensures BestFeesFall(job, Next(cfg, job, e)) <==> DropsCandidate(cfg, job, e)
  {
    if e.Polled? && !e.tick.deadline {
      BeforeReceiveInv(cfg, job, e.tick);
      var mid := BeforeReceive(cfg, job, e.tick);
      assert mid.best == job.best;
      if mid.pending.Some? && e.tick.result.Some? && e.tick.result.value.Success? {
        assert mid.pending.value == Build(CommittedPayload(mid), BestPayload(mid));
      }
    }
  }

  predicate NoFreeze(e: Event) {
    e.Polled? && e.tick.result.Some? && e.tick.result.value.Success? ==> !e.tick.result.value.value.Freeze?
  }

  /** Over every run in which no build freezes the best payload is never lost and its fees never fall. */
  lemma BestFeesNeverFall(cfg: Config, job: Job, events: seq<Event>)
    requires Inv(cfg, job) && LegalRun(cfg, job, events)
    requires forall e :: e in events ==> NoFreeze(e)
    ensures !BestFeesFall(job, Run(cfg, job, events))
  {
    forall j, e | Inv(cfg, j) && !BestFeesFall(job, j) && NoFreeze(e) && LegalEvent(cfg, j, e)
      ensures Inv(cfg, Next(cfg, j, e)) && !BestFeesFall(job, Next(cfg, j, e))
    {
      NextInv(cfg, j, e);
      BestFeesFallOnlyAtFreeze(cfg, j, e);
    }
    RunInduction(cfg, job, events, j => Inv(cfg, j) && !BestFeesFall(job, j), e => NoFreeze(e));
  }

  // ---------------------------------------------------------------------------------------------
  // Freezing
  // ---------------------------------------------------------------------------------------------

  /** Nothing is pending and nothing will be spawned again. */
  predicate Settled(job: Job) {
    job.best.Frozen? && job.pending.None? && job.committed.Confirmed?
  }

  predicate ReceivesFreeze(cfg: Config, job: Job, e: Event) {
    && e.Polled? && !e.tick.deadline
    && BeforeReceive(cfg, job, e.tick).pending.Some?
    && e.tick.result.Some? && e.tick.result.value.Success? && e.tick.result.value.value.Freeze?
  }

  lemma {:induction false} SettledForever(cfg: Config, job: Job, events: seq<Event>)
    requires Settled(job)
    ensures Run(cfg, job, events) == job
    decreases |events|
  {
    if events != [] {
      assert Next(cfg, job, events[0]) == job;
      SettledForever(cfg, job, events[1..]);
    }
  }

  /** After a freeze outcome the job never changes again. */
  lemma FreezeSettles(cfg: Config, job: Job, e: Event, events: seq<Event>)
    requires ReceivesFreeze(cfg, job, e)
    ensures Settled(Next(cfg, job, e))
    ensures Run(cfg, Next(cfg, job, e), events) == Next(cfg, job, e)
  {
    SettledForever(cfg, Next(cfg, job, e), events);
  }

  /** A job that takes over a pre-confirmed payload starts with a frozen best payload. The first build
      result it receives decides everything: unless it is a better payload, no build is spawned ever
      again and the job stays at the inherited payload. */
  lemma TakeoverStallsUnlessFirstBuildImproves(cfg: Config, net: Coordinator, pre: PreState, t: Tick)
    requires !cfg.noTxPool && WellFormed(cfg, pre.payload) && !t.deadline && t.result.Some?
    requires Legal(cfg, NewJob(net, Some(pre)), t)
    ensures Settled(Poll(cfg, NewJob(net, Some(pre)), t)) <==> !(t.result.value.Success? && t.result.value.value.Better?)
  {
    NewJobInv(cfg, net, Some(pre));
    var job := NewJob(net, Some(pre));
    assert BeforeReceive(cfg, job, t) == job;
    if t.result.value.Success? && t.result.value.value.Better? {
      var p := t.result.value.value.payload;
      assert p.fees > pre.payload.fees;
    }
  }

  // ---------------------------------------------------------------------------------------------
  // Conservation
  // ---------------------------------------------------------------------------------------------

  /** The increments sent since `start` follow its committed transactions and withdrawals, carry
      consecutive indices from its index, and together make up the committed payload. */
  predicate Conserved(start: Job, job: Job) {
    && start.net.sent <= job.net.sent
    && var slices := job.net.sent[|start.net.sent|..];
       && job.index == start.index + |slices|
       && CommittedTxs(job) == CommittedTxs(start) + TxsOf(slices)
       && CommittedWithdrawals(job) == CommittedWithdrawals(start) + WithdrawalsOf(slices)
       && forall k :: 0 <= k < |slices| ==> slices[k].index == start.index + k
  }

  /** The coordinator has accepted as many flashblocks as the job has committed. */
  predicate InStep(job: Job) {
    |job.net.accepted| == job.index
  }

  predicate Commits(cfg: Config, job: Job, t: Tick) {
    !t.deadline && t.clearance && job.best.Candidate? && !SameAsCommitted(job, job.best.payload)
  }

  /** The coordinator can record the job's next flashblock: there is a signer, and if the coordinator still
      holds another payload, its base is older than this block. */
  predicate Recordable(cfg: Config, job: Job, t: Tick) {
    t.signer && (job.net.accepted == [] ==> cfg.timestamp > job.net.held)
  }

  predicate PublishSucceeds(cfg: Config, job: Job, e: Event) {
    e.Polled? && Commits(cfg, job, e.tick) ==> Recordable(cfg, job, e.tick) && e.tick.network
  }

  /** Every poll of the run that commits also publishes. */
  predicate PublishesEveryCommit(cfg: Config, job: Job, events: seq<Event>)
    decreases |events|
  {
    events != [] ==>
      PublishSucceeds(cfg, job, events[0]) && PublishesEveryCommit(cfg, Next(cfg, job, events[0]), events[1..])
  }

  /** In pool mode a build result never changes what is committed. */
  lemma ReceiveKeepsCommitted(cfg: Config, job: Job, result: Option<Result<Outcome, string>>)
    requires !cfg.noTxPool && Inv(cfg, job)
    requires job.pending.Some? && result.Some? && result.value.Success? ==> Honest(cfg, job.pending.value, result.value.value)
    ensures var after := Receive(job, result);
            CommittedPayload(after) == CommittedPayload(job) && after.index == job.index && after.net == job.net
  {}

  lemma ConservedCong(start: Job, a: Job, b: Job)
    requires CommittedPayload(a) == CommittedPayload(b) && a.index == b.index && a.net == b.net
    requires InStep(a) && Conserved(start, a)
    ensures InStep(b) && Conserved(start, b)
  {}

  lemma NextConserves(cfg: Config, start: Job, job: Job, e: Event)
    requires !cfg.noTxPool && cfg.authorized && PublishSucceeds(cfg, job, e)
    requires Inv(cfg, job) && InStep(job) && Conserved(start, job) && LegalEvent(cfg, job, e)
    ensures InStep(Next(cfg, job, e)) && Conserved(start, Next(cfg, job, e))
  {
    match e
    case Polled(t) =>
      if !t.deadline {
        ConservedCong(start, job, Recommit(job, t));
        CommitConserves(cfg, start, Recommit(job, t), t);
        BeforeReceiveInv(cfg, job, t);
        var mid := BeforeReceive(cfg, job, t);
        ReceiveKeepsCommitted(cfg, mid, t.result);
        ConservedCong(start, mid, Receive(mid, t.result));
      }
    case Resolved(missing, wait) =>
      ConservedCong(start, job, Next(cfg, job, e));
  }

  /** Sending one more increment of the committed payload keeps the account balanced. */
  lemma OneMoreSlice(start: Job, job: Job, after: Job, fb: Flashblock)
    requires Conserved(start, job) && fb.index == job.index
    requires after.net.sent == job.net.sent + [fb] && after.index == job.index + 1
    requires CommittedTxs(after) == CommittedTxs(job) + fb.txs
    requires CommittedWithdrawals(after) == CommittedWithdrawals(job) + fb.withdrawals
    ensures Conserved(start, after)
  {
    var slices := job.net.sent[|start.net.sent|..];
    assert after.net.sent[|start.net.sent|..] == slices + [fb];
    assert (slices + [fb])[..|slices|] == slices;
    assert CommittedTxs(start) + TxsOf(slices) + fb.txs == CommittedTxs(start) + (TxsOf(slices) + fb.txs);
    assert CommittedWithdrawals(start) + WithdrawalsOf(slices) + fb.withdrawals
        == CommittedWithdrawals(start) + (WithdrawalsOf(slices) + fb.withdrawals);
  }

  lemma CommitConserves(cfg: Config, start: Job, job: Job, t: Tick)
    requires cfg.authorized && !t.deadline && (Commits(cfg, job, t) ==> Recordable(cfg, job, t) && t.network)
    requires Inv(cfg, job) && InStep(job) && Conserved(start, job)
    ensures InStep(Commit(cfg, job, t)) && Conserved(start, Commit(cfg, job, t))
  {
    if Commits(cfg, job, t) {
      var p := job.best.payload;
      var fb := Increment(cfg, p, CommittedPayload(job), job.index, job.bestList);
      assert CommittedTxs(job) + fb.txs == p.block.txs;
      assert CommittedWithdrawals(job) + fb.withdrawals == p.block.withdrawals;
      OneMoreSlice(start, job, Commit(cfg, job, t), fb);
    }
  }

  lemma {:induction false} SlicesAddUpFrom(cfg: Config, start: Job, job: Job, events: seq<Event>)
    requires !cfg.noTxPool && cfg.authorized
    requires Inv(cfg, job) && InStep(job) && Conserved(start, job)
    requires LegalRun(cfg, job, events) && PublishesEveryCommit(cfg, job, events)
    ensures InStep(Run(cfg, job, events)) && Conserved(start, Run(cfg, job, events))
    decreases |events|
  {
    if events != [] {
      NextInv(cfg, job, events[0]);
      NextConserves(cfg, start, job, events[0]);
      SlicesAddUpFrom(cfg, start, Next(cfg, job, events[0]), events[1..]);
    }
  }

  /** In every pool-mode run in which every commit is published, the starting transactions followed by all
      published slices equal the committed payload's transactions, and likewise for withdrawals;
      commits take consecutive flashblock indices. Freezes included: a pool-mode freeze hands back
      the committed payload itself. */
  lemma PublishedSlicesAddUp(cfg: Config, job: Job, events: seq<Event>)
    requires !cfg.noTxPool && cfg.authorized
    requires Inv(cfg, job) && InStep(job) && LegalRun(cfg, job, events) && PublishesEveryCommit(cfg, job, events)
    ensures InStep(Run(cfg, job, events)) && Conserved(job, Run(cfg, job, events))
  {
    assert Conserved(job, job) by {
      assert job.net.sent[|job.net.sent|..] == [];
    }
    SlicesAddUpFrom(cfg, job, job, events);
  }

  // ---------------------------------------------------------------------------------------------
  // The coordinator's view and takeovers
  // ---------------------------------------------------------------------------------------------

  /** The coordinator's flashblocks reproduce the committed payload, and the job's index is next. */
  predicate InSync(cfg: Config, job: Job) {
    InStep(job) && Reproduces(cfg, job.net, CommittedPayload(job))
  }

  /** The coordinator has missed a flashblock: its last payload is shorter than the committed one. */
  predicate Behind(job: Job) {
    && |job.net.accepted| < job.index
    && job.committed.Confirmed?
    && (job.net.latest.Some? ==> |job.net.latest.value.block.txs| < |job.committed.payload.block.txs|)
  }

  /** Every poll of the run that commits finds the flashblock recordable. */
  predicate RecordsEveryCommit(cfg: Config, job: Job, events: seq<Event>)
    decreases |events|
  {
    events != [] ==>
      && (events[0].Polled? && Commits(cfg, job, events[0].tick) ==> Recordable(cfg, job, events[0].tick))
      && RecordsEveryCommit(cfg, Next(cfg, job, events[0]), events[1..])
  }

  lemma CommitInSync(cfg: Config, job: Job, t: Tick)
    requires cfg.authorized && !t.deadline && Inv(cfg, job) && InSync(cfg, job)
    ensures Commits(cfg, job, t) && !Recordable(cfg, job, t) ==> Behind(Commit(cfg, job, t))
    ensures !Commits(cfg, job, t) || Recordable(cfg, job, t) ==> InSync(cfg, Commit(cfg, job, t))
  {
    if Commits(cfg, job, t) {
      var p := job.best.payload;
      if Recordable(cfg, job, t) {
        AcceptIncrement(cfg, job.net, CommittedPayload(job), p, job.bestList, t.network);
      }
    }
  }

  lemma NextInSync(cfg: Config, job: Job, e: Event)
    requires !cfg.noTxPool && cfg.authorized && Inv(cfg, job) && InSync(cfg, job) && LegalEvent(cfg, job, e)
    ensures if e.Polled? && Commits(cfg, job, e.tick) && !Recordable(cfg, job, e.tick) then Behind(Next(cfg, job, e))
            else InSync(cfg, Next(cfg, job, e))
  {
    match e
    case Polled(t) =>
      if !t.deadline {
        var recommitted := Recommit(job, t);
        assert CommittedPayload(recommitted) == CommittedPayload(job);
        CommitInSync(cfg, recommitted, t);
        BeforeReceiveInv(cfg, job, t);
        var mid := BeforeReceive(cfg, job, t);
        ReceiveKeepsCommitted(cfg, mid, t.result);
        assert CommittedPayload(Receive(mid, t.result)) == CommittedPayload(mid);
      }
    case Resolved(missing, wait) =>
      assert CommittedPayload(Next(cfg, job, e)) == CommittedPayload(job);
  }

  /** A missed flashblock leaves a gap in the indices, so every later flashblock is refused. */
  lemma NextBehind(cfg: Config, job: Job, e: Event)
    requires Inv(cfg, job) && Behind(job) && LegalEvent(cfg, job, e)
    ensures Behind(Next(cfg, job, e)) && Next(cfg, job, e).net == job.net
  {
    NextGrows(cfg, job, e);
  }

  lemma {:induction false} BehindForever(cfg: Config, job: Job, events: seq<Event>)
    requires Inv(cfg, job) && Behind(job) && LegalRun(cfg, job, events)
    ensures Behind(Run(cfg, job, events)) && Run(cfg, job, events).net == job.net
    decreases |events|
  {
    if events != [] {
      NextInv(cfg, job, events[0]);
      NextBehind(cfg, job, events[0]);
      BehindForever(cfg, Next(cfg, job, events[0]), events[1..]);
    }
  }

  /** For every pool-mode run that starts in sync: the coordinator's flashblocks still reproduce the
      committed payload at the end if and only if every commit could be recorded: it was signed, and the first
      one was later than whatever base the coordinator held. */
  lemma {:induction false} InSyncIffEveryCommitRecorded(cfg: Config, job: Job, events: seq<Event>)
    requires !cfg.noTxPool && cfg.authorized && Inv(cfg, job) && InSync(cfg, job) && LegalRun(cfg, job, events)
    ensures InSync(cfg, Run(cfg, job, events)) <==> RecordsEveryCommit(cfg, job, events)
    decreases |events|
  {
    if events != [] {
      var e, next := events[0], Next(cfg, job, events[0]);
      NextInv(cfg, job, e);
      NextInSync(cfg, job, e);
      if e.Polled? && Commits(cfg, job, e.tick) && !Recordable(cfg, job, e.tick) {
        BehindForever(cfg, next, events[1..]);
      } else {
        InSyncIffEveryCommitRecorded(cfg, next, events[1..]);
      }
    }
  }

  function Built(p: Payload): Event {
    Polled(Tick(false, false, false, true, true, Some(Success(Better(p, None)))))
  }

  function CommitWith(signer: bool): Event {
    Polled(Tick(false, false, true, signer, true, None))
  }

  /** The failing side, both ways: a fresh job whose first payload is committed while the signer is
      unavailable, or while the coordinator holds a base that is not older, leaves the coordinator behind. */
  lemma UnrecordedCommitFallsBehind(cfg: Config, p: Payload, held: nat, signer: bool)
    requires !cfg.noTxPool && cfg.authorized && WellFormed(cfg, p)
    requires !signer || cfg.timestamp <= held
    ensures var job, events := NewJob(Coordinator([], [], None, held), None), [Built(p), CommitWith(signer)];
            && Inv(cfg, job) && InSync(cfg, job) && LegalRun(cfg, job, events)
            && Run(cfg, job, events).committed.Confirmed? && !InSync(cfg, Run(cfg, job, events))
  {
    var job, events := NewJob(Coordinator([], [], None, held), None), [Built(p), CommitWith(signer)];
    var built := Next(cfg, job, events[0]);
    assert built.best == Candidate(p) && built.committed.Empty?;
    assert events[1..] == [CommitWith(signer)] && events[1..][1..] == [];
    var after := Next(cfg, built, CommitWith(signer));
    assert Run(cfg, built, events[1..]) == Run(cfg, after, []);
    assert Run(cfg, job, events) == after;
  }

  /** Successive builders of one payload id: each takes over from the coordinator and runs for a while. */
  function Takeovers(cfg: Config, net: Coordinator, epochs: seq<seq<Event>>): Option<Job>
    requires epochs != []
    decreases |epochs|
  {
    match CheckForPreState(net)
    case Failure(_) => None
    case Success(pre) =>
      var job := Run(cfg, NewJob(net, pre), epochs[0]);
      if |epochs| == 1 then Some(job) else Takeovers(cfg, job.net, epochs[1..])
  }

  predicate LegalTakeovers(cfg: Config, net: Coordinator, epochs: seq<seq<Event>>)
    requires epochs != []
    decreases |epochs|
  {
    match CheckForPreState(net)
    case Failure(_) => true
    case Success(pre) =>
      var job := NewJob(net, pre);
      && LegalRun(cfg, job, epochs[0]) && RecordsEveryCommit(cfg, job, epochs[0])
      && (|epochs| > 1 ==> LegalTakeovers(cfg, Run(cfg, job, epochs[0]).net, epochs[1..]))
  }

  /** Across any number of takeovers the flashblocks of all builders together reduce to the block the
      last builder has committed, and nothing pre-confirmed by an earlier builder is lost. */
  lemma {:induction false} TakeoversReproduce(cfg: Config, net: Coordinator, committed: Option<Payload>, epochs: seq<seq<Event>>)
    requires !cfg.noTxPool && cfg.authorized && epochs != []
    requires Reproduces(cfg, net, committed) && (committed.Some? ==> WellFormed(cfg, committed.value))
    requires LegalTakeovers(cfg, net, epochs)
    ensures var last := Takeovers(cfg, net, epochs);
            && last.Some? && Inv(cfg, last.value) && InSync(cfg, last.value)
            && (committed.Some? ==> last.value.committed.Confirmed?
                                    && Extends(committed.value, last.value.committed.payload))
            && (last.value.committed.Confirmed? ==>
                  var block := Reduce(last.value.net.accepted).value;
                  && block.txs == last.value.committed.payload.block.txs
                  && block.hash == last.value.committed.payload.hash
                  && block.gasUsed == last.value.committed.payload.block.gasUsed
                  && block.fees == last.value.committed.payload.fees
                  && block.index + 1 == last.value.index)
    decreases |epochs|
  {
    TakeoverResumes(cfg, net, committed);
    var pre := CheckForPreState(net).value;
    var job := NewJob(net, pre);
    NewJobInv(cfg, net, pre);
    assert CommittedPayload(job) == committed;
    InSyncIffEveryCommitRecorded(cfg, job, epochs[0]);
    EveryRunKeepsInv(cfg, job, epochs[0]);
    EveryRunGrows(cfg, job, epochs[0]);
    var end := Run(cfg, job, epochs[0]);
    if |epochs| > 1 {
      TakeoversReproduce(cfg, end.net, CommittedPayload(end), epochs[1..]);
    } else if end.committed.Confirmed? {
      ReduceIsConcatenation(end.net.accepted);
      assert Faithful(cfg, end.net.accepted, |end.net.accepted| - 1);
    }
  }

  // ---------------------------------------------------------------------------------------------
  // The job object
  // ---------------------------------------------------------------------------------------------

  class FlashblocksPayloadJob {
    const cfg: Config
    var best: Best
    var bestList: Option<AccessList>
    var committed: Committed
    var pending: Option<Build>
    var index: nat
    var net: Coordinator

    function State(): Job
      reads this
    {
      Job(best, bestList, committed, pending, index, net)
    }

    constructor (cfg: Config, net: Coordinator, pre: Option<PreState>)
      ensures this.cfg == cfg && State() == NewJob(net, pre)
    {
      this.cfg, this.net := cfg, net;
      var payload := if pre.Some? then Some(pre.value.payload) else None;
      committed := if pre.Some? then Confirmed(pre.value.payload, pre.value.accessList, true) else Empty;
      best := if pre.Some? then Frozen(pre.value.payload) else Missing;
      bestList := if pre.Some? then pre.value.accessList else None;
      index := if pre.Some? then pre.value.index else 0;
      pending := Some(Build(payload, payload));
    }

    method SpawnBuildJob()
      modifies this`pending
      ensures State() == Spawn(old(State()))
    {
      var bestPayload := if best.Missing? then None else Some(best.payload);
      var base := if committed.Empty? then None else Some(committed.payload);
      pending := Some(Build(base, bestPayload));
    }

    method PublishPayload(p: Payload, list: Option<AccessList>, signer: bool, network: bool)
      modifies this`net
      ensures net == Publish(old(net), Increment(cfg, p, CommittedPayload(old(State())), index, list), p, signer, network)
    {
      var txOffset, withdrawalOffset := 0, 0;
      if committed.Confirmed? {
        txOffset, withdrawalOffset := |committed.payload.block.txs|, |committed.payload.block.withdrawals|;
      }
      var flashblock := Flashblock(index, if index == 0 then Some(cfg.timestamp) else None, p.hash, Skip(p.block.txs, txOffset),
                                   Skip(p.block.withdrawals, withdrawalOffset), p.block.gasUsed, p.fees, list);
      if !signer { return; }
      if net.accepted == [] {
        if flashblock.index != 0 || flashblock.base.None? || flashblock.base.value <= net.held { return; }
      } else if flashblock.index != |net.accepted| {
        return;
      }
      net := net.(accepted := net.accepted + [flashblock], latest := Some(p));
      if network {
        net := net.(sent := net.sent + [flashblock]);
      }
    }

    /** One poll. The cancelled outcome the source declares unreachable is unreachable here too. */
    method PollOnce(t: Tick) returns (finished: bool)
      requires Inv(cfg, State()) && Legal(cfg, State(), t)
      modifies this
      ensures finished == t.deadline && State() == Poll(cfg, old(State()), t) && Inv(cfg, State())
    {
      NextInv(cfg, State(), Polled(t));
      if t.deadline { return true; }
      if t.recommit && !best.Frozen? && pending.None? {
        SpawnBuildJob();
      }
      assert State() == Recommit(old(State()), t);
      CommitBest(t);
      ReceiveResult(t.result);
      finished := false;
    }

    method CommitBest(t: Tick)
      modifies this
      ensures State() == Commit(cfg, old(State()), t)
    {
      if !t.clearance || !best.Candidate? { return; }
      var p, list := best.payload, bestList;
      if committed.Empty? || committed.payload.hash != p.hash {
        if cfg.authorized {
          PublishPayload(p, list, t.signer, t.network);
        }
        committed := Confirmed(p, list, false);
        index := index + 1;
      }
      SpawnBuildJob();
    }

    method ReceiveResult(result: Option<Result<Outcome, string>>)
      requires pending.Some? && result.Some? && result.value.Success? ==> Honest(cfg, pending.value, result.value.value)
      modifies this
      ensures State() == Receive(old(State()), result)
    {
      if pending.None? || result.None? { return; }
      pending := None;
      if result.value.Failure? { return; }
      match result.value.value
      case Better(p, list) =>
        if committed.Empty? || committed.payload.hash != p.hash {
          best, bestList := Candidate(p), list;
        }
      case Freeze(p, list) =>
        if committed.Empty? || committed.payload.hash != p.hash {
          committed := Confirmed(p, list, true);
        }
        best, bestList := Frozen(p), list;
      case Aborted(_) =>
      case Cancelled => assert false;
    }

    method ResolveKind(missing: MissingPayload, waitForPending: bool) returns (future: Future)
      modifies this`pending
      ensures (State(), future) == Resolve(cfg, old(State()), missing, waitForPending)
    {
      if committed.Empty? && pending.None? {
        SpawnBuildJob();
      }
      var maybeBetter: Option<Build> := None;
      if cfg.noTxPool {
        maybeBetter, pending := pending, None;
      }
      var race := false;
      if committed.Empty? {
        if missing == AwaitInProgress {
          if maybeBetter.None? {
            maybeBetter, pending := pending, None;
          }
        } else {
          race := true;
        }
      }
      var payload := if committed.Empty? then None else Some(committed.payload);
      future := Future(payload, maybeBetter, race && !waitForPending);
    }
  }

  /** What the generator meets when it starts a job: whether the parent header is found, the authorization it
      waited for (`Failure` when the channel closes), whether it may authorize itself, whether publishing is
      forced, and whether the peer-to-peer layer agrees to publish. */
  datatype Generator = Generator(parentFound: bool, authorization: Result<bool, string>, overrideKey: bool,
                                 forcePublish: bool, canPublish: bool)

  predicate Authorized(g: Generator) {
    g.authorization.Success? && (g.authorization.value || (g.overrideKey && g.forcePublish))
  }

  /** Starts a job for a payload id, resuming from the coordinator when it has pre-confirmed blocks. */
  method NewPayloadJob(noTxPool: bool, blockOf: Hash -> Block, timestamp: nat, net: Coordinator, g: Generator)
    returns (job: FlashblocksPayloadJob?)
    ensures job == null <==>
            !g.parentFound || CheckForPreState(net).Failure? || g.authorization.Failure? || (Authorized(g) && !g.canPublish)
    ensures job != null ==>
            && fresh(job) && job.cfg == Config(noTxPool, Authorized(g), blockOf, timestamp)
            && job.State() == NewJob(net, CheckForPreState(net).value)
  {
    if !g.parentFound { return null; }
    var pre := CheckForPreStateLoop(net);
    if pre.Failure? { return null; }
    if g.authorization.Failure? { return null; }
    var authorized := g.authorization.value;
    var canOverride := g.forcePublish || authorized;
    if g.overrideKey && canOverride { authorized := true; }
    if authorized && !g.canPublish { return null; }
    job := new FlashblocksPayloadJob(Config(noTxPool, authorized, blockOf, timestamp), net, pre.value);
  }
}

/** The job driven by the real builder. */
module PayloadPipeline {
  import opened Wrappers
  import opened Transactions
  import opened Payloads
  import opened Flashblocks
  import PayloadBuilder
  import PayloadJob

  /** A poll that receives what `build_inner` returned for the pending build is a legal step, so the
      run theorems of the job apply to it. */
  lemma BuilderResultsAreLegal(cfg: Config, env: PayloadBuilder.Env, job: PayloadJob.Job, t: PayloadJob.Tick, pool: seq<Tx>)
    requires PayloadJob.Inv(cfg, job) && PayloadBuilder.Sound(cfg, env) && !t.deadline
    requires var mid := PayloadJob.BeforeReceive(cfg, job, t);
             && mid.pending.Some?
             && (mid.committed.Confirmed? ==> mid.committed.payload.block.withdrawals == env.withdrawals)
             && PayloadBuilder.Admissible(cfg, env, None, Some(pool))
             && PayloadBuilder.Built(cfg, env, mid.pending.value, Some(pool)).Some?
             && t.result == Some(Success(PayloadBuilder.Built(cfg, env, mid.pending.value, Some(pool)).value))
    ensures PayloadJob.Legal(cfg, job, t)
  {
    PayloadJob.BeforeReceiveInv(cfg, job, t);
    var mid := PayloadJob.BeforeReceive(cfg, job, t);
    assert mid.pending.value.base == PayloadJob.CommittedPayload(mid);
    PayloadBuilder.BuildIsHonest(cfg, env, mid.pending.value, Some(pool));
  }

  /** One event of a job together with the pool and environment the builder sees at that moment. */
  datatype Drive = Drive(event: PayloadJob.Event, env: PayloadBuilder.Env, pool: seq<Tx>)

  /** A build result the poll receives is what `build_inner` returned for the pending build. */
  ghost predicate Driven(cfg: Config, withdrawals: seq<Withdrawal>, job: PayloadJob.Job, d: Drive) {
    && PayloadBuilder.Sound(cfg, d.env) && PayloadBuilder.Admissible(cfg, d.env, None, Some(d.pool))
    && d.env.withdrawals == withdrawals
    && (d.event.Polled? && !d.event.tick.deadline ==>
          var pending, result := PayloadJob.BeforeReceive(cfg, job, d.event.tick).pending, d.event.tick.result;
          pending.Some? && result.Some? && result.value.Success? ==>
            PayloadBuilder.Built(cfg, d.env, pending.value, Some(d.pool)) == Some(result.value.value))
  }

  ghost predicate DrivenRun(cfg: Config, withdrawals: seq<Withdrawal>, job: PayloadJob.Job, drives: seq<Drive>)
    decreases |drives|
  {
    drives != [] ==>
      && Driven(cfg, withdrawals, job, drives[0])
      && DrivenRun(cfg, withdrawals, PayloadJob.Next(cfg, job, drives[0].event), drives[1..])
  }

  function Events(drives: seq<Drive>): seq<PayloadJob.Event> {
    seq(|drives|, i requires 0 <= i < |drives| => drives[i].event)
  }

  predicate Withdraws(withdrawals: seq<Withdrawal>, job: PayloadJob.Job) {
    && (job.committed.Confirmed? ==> job.committed.payload.block.withdrawals == withdrawals)
    && (!job.best.Missing? ==> job.best.payload.block.withdrawals == withdrawals)
  }

  lemma BuiltWithdraws(cfg: Config, env: PayloadBuilder.Env, build: Build, pool: seq<Tx>)
    requires build.base.Some? ==> build.base.value.block.withdrawals == env.withdrawals
    ensures var outcome := PayloadBuilder.Built(cfg, env, build, Some(pool));
            outcome.Some? && (outcome.value.Better? || outcome.value.Freeze?) ==>
              outcome.value.payload.block.withdrawals == env.withdrawals
  {}

  lemma ReceiveWithdraws(withdrawals: seq<Withdrawal>, job: PayloadJob.Job, result: Option<Result<Outcome, string>>)
    requires Withdraws(withdrawals, job)
    requires job.pending.Some? && result.Some? && result.value.Success?
             && (result.value.value.Better? || result.value.value.Freeze?) ==>
               result.value.value.payload.block.withdrawals == withdrawals
    ensures Withdraws(withdrawals, PayloadJob.Receive(job, result))
  {}

  lemma DrivenStep(cfg: Config, withdrawals: seq<Withdrawal>, job: PayloadJob.Job, d: Drive)
    requires PayloadJob.Inv(cfg, job) && Withdraws(withdrawals, job) && Driven(cfg, withdrawals, job, d)
    ensures PayloadJob.LegalEvent(cfg, job, d.event)
    ensures Withdraws(withdrawals, PayloadJob.Next(cfg, job, d.event))
  {
    if d.event.Polled? && !d.event.tick.deadline {
      var t := d.event.tick;
      var mid := PayloadJob.BeforeReceive(cfg, job, t);
      PayloadJob.BeforeReceiveInv(cfg, job, t);
      assert Withdraws(withdrawals, mid);
      if mid.pending.Some? && t.result.Some? && t.result.value.Success? {
        BuiltWithdraws(cfg, d.env, mid.pending.value, d.pool);
        BuilderResultsAreLegal(cfg, d.env, job, t, d.pool);
      }
      ReceiveWithdraws(withdrawals, mid, t.result);
    }
  }

  /** Every run of the job whose build results come from the builder, for any pools, timers and publish
      results, is a legal run. */
  lemma {:induction false} BuilderRunsAreLegal(cfg: Config, withdrawals: seq<Withdrawal>, job: PayloadJob.Job, drives: seq<Drive>)
    requires PayloadJob.Inv(cfg, job) && Withdraws(withdrawals, job) && DrivenRun(cfg, withdrawals, job, drives)
    ensures PayloadJob.LegalRun(cfg, job, Events(drives))
    decreases |drives|
  {
    if drives != [] {
      DrivenStep(cfg, withdrawals, job, drives[0]);
      PayloadJob.NextInv(cfg, job, drives[0].event);
      BuilderRunsAreLegal(cfg, withdrawals, PayloadJob.Next(cfg, job, drives[0].event), drives[1..]);
      assert Events(drives)[1..] == Events(drives[1..]);
    }
  }

  /** End to end, from a fresh job: with the real builder behind it, the slices published over the whole
      run make up the committed payload, and a resolve delivers exactly that payload. */
  lemma PublishedIsDelivered(cfg: Config, withdrawals: seq<Withdrawal>, net: Coordinator, drives: seq<Drive>,
                             missing: PayloadJob.MissingPayload, wait: bool,
                             ready: Option<Result<Outcome, string>>, raced: Option<Payload>)
    requires !cfg.noTxPool && cfg.authorized && net.accepted == [] && net.sent == []
    requires DrivenRun(cfg, withdrawals, PayloadJob.NewJob(net, None), drives)
    requires PayloadJob.PublishesEveryCommit(cfg, PayloadJob.NewJob(net, None), Events(drives))
    ensures var end := PayloadJob.Run(cfg, PayloadJob.NewJob(net, None), Events(drives));
            var delivered := PayloadJob.Deliver(PayloadJob.Resolve(cfg, end, missing, wait).1, ready, raced);
            && PayloadJob.CommittedTxs(end) == TxsOf(end.net.sent)
            && end.index == |end.net.sent|
            && (end.committed.Confirmed? ==>
                  && delivered == Some(end.committed.payload)
                  && delivered.value.block.txs == TxsOf(end.net.sent)
                  && delivered.value.block.withdrawals == WithdrawalsOf(end.net.sent))
  {
    var job := PayloadJob.NewJob(net, None);
    PayloadJob.NewJobInv(cfg, net, None);
    BuilderRunsAreLegal(cfg, withdrawals, job, drives);
    PayloadJob.PublishedSlicesAddUp(cfg, job, Events(drives));
    var end := PayloadJob.Run(cfg, job, Events(drives));
    assert end.net.sent[0..] == end.net.sent;
    assert [] + TxsOf(end.net.sent) == TxsOf(end.net.sent);
    assert [] + WithdrawalsOf(end.net.sent) == WithdrawalsOf(end.net.sent);
  }

  /** A result the job still listens for belongs to a build whose handle has not been dropped, so its cancel
      signal was never raised. */
  ghost predicate Listening(d: Drive) {
    forall n :: !d.env.ctx.cancelled(n)
  }

  lemma ListeningNeverFreezes(cfg: Config, withdrawals: seq<Withdrawal>, job: PayloadJob.Job, d: Drive)
    requires !cfg.noTxPool && Driven(cfg, withdrawals, job, d) && Listening(d)
    ensures !PayloadJob.ReceivesFreeze(cfg, job, d.event)
  {
    if d.event.Polled? && !d.event.tick.deadline {
      var pending := PayloadJob.BeforeReceive(cfg, job, d.event.tick).pending;
      if pending.Some? {
        PayloadBuilder.UncancelledNeverFreezes(cfg, d.env, pending.value, Some(d.pool));
      }
    }
  }

  /** With the builder behind the job, a pool-mode run never loses its best payload or lowers its fees. */
  lemma {:induction false} BuilderRunsKeepBestFees(cfg: Config, withdrawals: seq<Withdrawal>, job: PayloadJob.Job, drives: seq<Drive>)
    requires !cfg.noTxPool && PayloadJob.Inv(cfg, job) && Withdraws(withdrawals, job)
    requires DrivenRun(cfg, withdrawals, job, drives) && forall d :: d in drives ==> Listening(d)
    ensures !PayloadJob.BestFeesFall(job, PayloadJob.Run(cfg, job, Events(drives)))
    decreases |drives|
  {
    if drives != [] {
      var e, next := drives[0].event, PayloadJob.Next(cfg, job, drives[0].event);
      DrivenStep(cfg, withdrawals, job, drives[0]);
      ListeningNeverFreezes(cfg, withdrawals, job, drives[0]);
      PayloadJob.NextInv(cfg, job, e);
      PayloadJob.BestFeesFallOnlyAtFreeze(cfg, job, e);
      assert forall d :: d in drives[1..] ==> d in drives;
      BuilderRunsKeepBestFees(cfg, withdrawals, next, drives[1..]);
      assert Events(drives)[1..] == Events(drives[1..]);
    }
  }
}
