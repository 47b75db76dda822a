/** Executing a block in flashblock fragments and merging the bundles gives the same state as executing
    it serially on one bundle (crates/evm/src/utils.rs: `cache_prestate_from_bundle`,
    `extend_flashblock_bundle`). The account life cycle is that of the execution database. */
module Bundles {
  import opened Wrappers
  import opened Reverts

  // ---------------------------------------------------------------------------------------------
  // Account life cycle
  // ---------------------------------------------------------------------------------------------

  /** Missing slots read as zero instead of falling through to the database. */
  predicate StorageKnown(s: Status) {
    s.LoadedNotExisting? || s.InMemoryChange? || WasDestroyed(s)
  }

  predicate WasDestroyed(s: Status) {
    s.Destroyed? || s.DestroyedChanged? || s.DestroyedAgain?
  }

  predicate Unmodified(s: Status) {
    s.LoadedNotExisting? || s.Loaded? || s.LoadedEmpty?
  }

  /** The account does not exist in this status. */
  predicate Gone(s: Status) {
    s.LoadedNotExisting? || s.Destroyed? || s.DestroyedAgain?
  }

  function OnSelfDestruct(s: Status): Status {
    if s.LoadedNotExisting? then s else if WasDestroyed(s) then DestroyedAgain else Destroyed
  }

  function OnTouchedEmpty(s: Status): Status {
    if s.LoadedNotExisting? then s
    else if s.DestroyedAgain? || s.DestroyedChanged? then DestroyedAgain
    else Destroyed
  }

  function OnCreated(s: Status): Status {
    if WasDestroyed(s) then DestroyedChanged else InMemoryChange
  }

  function OnChanged(s: Status, hadNoNonceAndCode: bool): Status {
    match s
    case Loaded => if hadNoNonceAndCode then InMemoryChange else Changed
    case Changed => Changed
    case Destroyed | DestroyedAgain | DestroyedChanged => DestroyedChanged
    case _ => InMemoryChange
  }

  /** Status of a merged bundle account. */
  function Transitioned(committed: Status, next: Status): Status {
    if WasDestroyed(committed) && !WasDestroyed(next) then DestroyedChanged
    else if committed.InMemoryChange? && !WasDestroyed(next) then InMemoryChange
    else next
  }

  /** Merging never forgets a destruction, and storage that is fully known stays so. */
  lemma TransitionedKeepsKnowledge(committed: Status, next: Status)
    ensures WasDestroyed(Transitioned(committed, next)) <==> WasDestroyed(committed) || WasDestroyed(next)
    ensures committed.InMemoryChange? || committed.Destroyed? || committed.DestroyedChanged? || committed.DestroyedAgain? ==>
              StorageKnown(Transitioned(committed, next))
  {}

  /** An account in the execution cache or in a bundle, with the present values of its known slots. */
  datatype Account = Account(info: Option<AccountInfo>, storage: map<Slot, Value>, status: Status)

  datatype DbAccount = DbAccount(info: Option<AccountInfo>, storage: map<Slot, Value>)

  /** What a committed transaction does to one account. */
  datatype Effect =
    | SelfDestruct
    | TouchEmpty
    | Create(info: AccountInfo, writes: map<Slot, Value>)
    | Change(info: AccountInfo, writes: map<Slot, Value>)

  function Load(db: DbAccount): Account {
    Account(db.info, map[],
            if db.info.None? then LoadedNotExisting
            else if db.info.value == AccountInfo(0, 0, 0) then LoadedEmpty else Loaded)
  }

  function ReadSlot(db: DbAccount, a: Account, s: Slot): Value {
    if s in a.storage then a.storage[s] else if StorageKnown(a.status) then 0 else At(db.storage, s)
  }

  function NoNonceAndCode(info: Option<AccountInfo>): bool {
    info.Some? && info.value.nonce == 0 && info.value.code == 0
  }

  /** Effect on the cached account. */
  function Apply(a: Account, e: Effect): Account {
    match e
    case SelfDestruct => Account(None, map[], OnSelfDestruct(a.status))
    case TouchEmpty => Account(None, map[], OnTouchedEmpty(a.status))
    case Create(info, writes) => Account(Some(info), writes, OnCreated(a.status))
    case Change(info, writes) => Account(Some(info), a.storage + writes, OnChanged(a.status, NoNonceAndCode(a.info)))
  }

  /** Some effects on absent accounts leave no trace in the bundle. */
  predicate Elided(status: Status, e: Effect) {
    || (e.SelfDestruct? && status.LoadedNotExisting?)
    || (e.TouchEmpty? && Gone(status))
  }

  /** Effect on the bundle entry: destruction drops the storage, everything else overlays the writes. */
  function Record(entry: Option<Account>, before: Account, e: Effect): Option<Account> {
    var after := Apply(before, e);
    if Elided(before.status, e) then entry
    else match e
         case SelfDestruct => Some(after)
         case TouchEmpty => Some(after)
         case _ => Some(Account(Some(e.info), (if entry.Some? then entry.value.storage else map[]) + e.writes, after.status))
  }

  /** What the EVM guarantees: an account is only created where there is no nonce, code or storage,
      and an account that exists with nonce or code does not become empty by being touched. */
  ghost predicate Possible(db: DbAccount, a: Account, e: Effect) {
    match e
    case SelfDestruct => true
    case TouchEmpty => !a.status.Loaded? && !a.status.Changed?
    case Create(_, _) => (a.info.None? || NoNonceAndCode(a.info)) && forall s :: ReadSlot(db, a, s) == 0
    case Change(_, _) => true
  }

  predicate Sane(a: Account) {
    (a.info.None? <==> Gone(a.status)) && (a.info.None? ==> a.storage == map[])
  }

  // ---------------------------------------------------------------------------------------------
  // The operations of the flashblock builder
  // ---------------------------------------------------------------------------------------------

  /** Cache prestate of a fragment: a destroyed-and-changed account starts as an in-memory change, so
      that the fragment's own bundle entry does not look destroyed. */
  function Prestate(a: Account): Account {
    if a.status.DestroyedChanged? then a.(status := InMemoryChange) else a
  }

  /** `BundleState::extend` for one account. */
  function Extend(committed: Account, next: Account): Account {
    Account(next.info,
            if WasDestroyed(next.status) then next.storage else committed.storage + next.storage,
            Transitioned(committed.status, next.status))
  }

  function ExtendEntry(committed: Option<Account>, next: Option<Account>): Option<Account> {
    if next.None? then committed
    else if committed.None? then next
    else Some(Extend(committed.value, next.value))
  }

  function CacheOf(db: DbAccount, entry: Option<Account>): Account {
    if entry.Some? then entry.value else Load(db)
  }

  function FragmentCacheOf(db: DbAccount, entry: Option<Account>): Account {
    if entry.Some? then Prestate(entry.value) else Load(db)
  }

  // ---------------------------------------------------------------------------------------------
  // One account: the fragment simulates the serial execution
  // ---------------------------------------------------------------------------------------------

  predicate StatusMatches(serial: Status, fragment: Status) {
    || serial == fragment
    || (serial.DestroyedChanged? && fragment.InMemoryChange?)
    || (serial.DestroyedAgain? && fragment.Destroyed?)
  }

  /** The cached accounts of both executions are indistinguishable to the EVM. */
  ghost predicate Simulates(db: DbAccount, serial: Account, fragment: Account) {
    && Sane(serial) && Sane(fragment)
    && serial.info == fragment.info
    && StatusMatches(serial.status, fragment.status)
    && (Unmodified(serial.status) ==> serial.storage == map[] && fragment.storage == map[])
    && forall s: Slot :: ReadSlot(db, serial, s) == ReadSlot(db, fragment, s)
  }

  lemma ApplySimulates(db: DbAccount, serial: Account, fragment: Account, e: Effect)
    requires Simulates(db, serial, fragment) && Possible(db, serial, e)
    ensures Possible(db, fragment, e)
    ensures Simulates(db, Apply(serial, e), Apply(fragment, e))
  {
    if e.Change? {
      var s', f' := Apply(serial, e), Apply(fragment, e);
      forall s: Slot ensures ReadSlot(db, s', s) == ReadSlot(db, f', s) {
        assert ReadSlot(db, serial, s) == ReadSlot(db, fragment, s);
      }
    }
  }

  /** A bundle entry describes a cached account: same info, same slots, and no entry only for an
      account that is still as loaded. */
  ghost predicate Describes(db: DbAccount, entry: Option<Account>, cached: Account) {
    match entry
    case None => cached == Load(db)
    case Some(b) =>
      && Sane(b) && !Unmodified(b.status)
      && b.info == cached.info
      && (b.status == cached.status || (b.status.DestroyedChanged? && cached.status.InMemoryChange?))
      && forall s: Slot :: ReadSlot(db, b, s) == ReadSlot(db, cached, s)
  }

  /** Serial execution keeps the one bundle in step with the cache. */
  lemma SerialRecord(db: DbAccount, entry: Option<Account>, cached: Account, e: Effect)
    requires Sane(cached) && Describes(db, entry, cached) && Possible(db, cached, e)
    requires entry.Some? ==> entry.value.status == cached.status
    ensures Sane(Apply(cached, e))
    ensures Describes(db, Record(entry, cached, e), Apply(cached, e))
    ensures Record(entry, cached, e).Some? ==> Record(entry, cached, e).value.status == Apply(cached, e).status
  {
    var entry', cached' := Record(entry, cached, e), Apply(cached, e);
    if !Elided(cached.status, e) && (e.Create? || e.Change?) {
      forall s: Slot ensures ReadSlot(db, entry'.value, s) == ReadSlot(db, cached', s) {
        if entry.Some? {
          assert ReadSlot(db, entry.value, s) == ReadSlot(db, cached, s);
        }
        assert e.Create? ==> ReadSlot(db, cached, s) == 0;
      }
    }
  }

  /** State of one account inside a fragment: `own` is the fragment's bundle entry. */
  ghost predicate FragmentInv(db: DbAccount, committed: Option<Account>, own: Option<Account>, cached: Account) {
    && Sane(cached)
    && (committed.Some? ==> Sane(committed.value) && !Unmodified(committed.value.status))
    && (own.Some? ==> Sane(own.value) && own.value.status == cached.status)
    && (own.None? ==> cached == FragmentCacheOf(db, committed))
    && Describes(db, ExtendEntry(committed, own), cached)
  }

  lemma FragmentCreate(db: DbAccount, committed: Option<Account>, own: Option<Account>, cached: Account, e: Effect)
    requires FragmentInv(db, committed, own, cached) && Possible(db, cached, e) && e.Create?
    ensures FragmentInv(db, committed, Record(own, cached, e), Apply(cached, e))
  {
    var merged, merged', cached' := ExtendEntry(committed, own), ExtendEntry(committed, Record(own, cached, e)), Apply(cached, e);
    forall s: Slot ensures ReadSlot(db, merged'.value, s) == ReadSlot(db, cached', s) {
      if merged.Some? {
        assert ReadSlot(db, merged.value, s) == ReadSlot(db, cached, s);
      }
      assert ReadSlot(db, cached, s) == 0;
    }
  }

  /** A written slot reads as written, any other as before. */
  lemma FragmentChangeSlot(db: DbAccount, committed: Option<Account>, own: Option<Account>, cached: Account, e: Effect, s: Slot)
    requires FragmentInv(db, committed, own, cached) && e.Change?
    ensures ReadSlot(db, ExtendEntry(committed, Record(own, cached, e)).value, s) == ReadSlot(db, Apply(cached, e), s)
  {
    var merged := ExtendEntry(committed, own);
    if own.None? && committed.None? {
    } else if own.None? {
      assert ReadSlot(db, committed.value, s) == ReadSlot(db, cached, s);
    } else {
      assert ReadSlot(db, merged.value, s) == ReadSlot(db, cached, s);
    }
  }

  lemma FragmentChange(db: DbAccount, committed: Option<Account>, own: Option<Account>, cached: Account, e: Effect)
    requires FragmentInv(db, committed, own, cached) && Possible(db, cached, e) && e.Change?
    ensures FragmentInv(db, committed, Record(own, cached, e), Apply(cached, e))
  {
    forall s: Slot
      ensures ReadSlot(db, ExtendEntry(committed, Record(own, cached, e)).value, s) == ReadSlot(db, Apply(cached, e), s)
    {
      FragmentChangeSlot(db, committed, own, cached, e, s);
    }
  }

  lemma FragmentRecord(db: DbAccount, committed: Option<Account>, own: Option<Account>, cached: Account, e: Effect)
    requires FragmentInv(db, committed, own, cached) && Possible(db, cached, e)
    ensures FragmentInv(db, committed, Record(own, cached, e), Apply(cached, e))
  {
    match e
    case Create(_, _) => FragmentCreate(db, committed, own, cached, e);
    case Change(_, _) => FragmentChange(db, committed, own, cached, e);
    case _ =>
  }

  /** The next fragment starts where the serial execution is. */
  lemma NextFragmentSimulates(db: DbAccount, serial: Account, merged: Option<Account>, cached: Account)
    requires Simulates(db, serial, cached) && Describes(db, merged, cached)
    ensures Simulates(db, serial, FragmentCacheOf(db, merged))
    ensures FragmentInv(db, merged, None, FragmentCacheOf(db, merged))
  {}

  // ---------------------------------------------------------------------------------------------
  // Whole states
  // ---------------------------------------------------------------------------------------------

  type Bundle = map<Addr, Account>
  type Db = map<Addr, DbAccount>

  datatype Op = Op(addr: Addr, effect: Effect)

  /** An execution: its account cache and the bundle it produces. */
  datatype Execution = Execution(cache: map<Addr, Account>, bundle: Bundle)

  function DbAt(db: Db, a: Addr): DbAccount {
    if a in db then db[a] else DbAccount(None, map[])
  }

  function Entry(bundle: Bundle, a: Addr): Option<Account> {
    if a in bundle then Some(bundle[a]) else None
  }

  function Cached(db: Db, x: Execution, a: Addr): Account {
    if a in x.cache then x.cache[a] else Load(DbAt(db, a))
  }

  function CommitOp(db: Db, x: Execution, op: Op): Execution {
    var before := Cached(db, x, op.addr);
    var entry := Record(Entry(x.bundle, op.addr), before, op.effect);
    Execution(x.cache[op.addr := Apply(before, op.effect)],
              if entry.Some? then x.bundle[op.addr := entry.value] else x.bundle)
  }

  function RunOps(db: Db, x: Execution, ops: seq<Op>): Execution
    decreases |ops|
  {
    if ops == [] then x else RunOps(db, CommitOp(db, x, ops[0]), ops[1..])
  }

  ghost predicate PossibleOps(db: Db, x: Execution, ops: seq<Op>)
    decreases |ops|
  {
    ops != [] ==>
      && Possible(DbAt(db, ops[0].addr), Cached(db, x, ops[0].addr), ops[0].effect)
      && PossibleOps(db, CommitOp(db, x, ops[0]), ops[1..])
  }

  /** Serial execution carries the committed bundle along. */
  function SerialStart(committed: Bundle): Execution {
    Execution(committed, committed)
  }

  /** A fragment starts from the committed bundle's cache and an empty bundle. */
  function FragmentStart(committed: Bundle): Execution {
    Execution(map a | a in committed :: Prestate(committed[a]), map[])
  }

  function ExtendBundle(committed: Bundle, next: Bundle): Bundle {
    map a | a in committed.Keys + next.Keys :: ExtendEntry(Entry(committed, a), Entry(next, a)).value
  }

  /** The bundle after all fragments, each executed from the merged bundle of its predecessors. */
  function Fragments(db: Db, committed: Bundle, fragments: seq<seq<Op>>): Bundle
    decreases |fragments|
  {
    if fragments == [] then committed
    else Fragments(db, ExtendBundle(committed, RunOps(db, FragmentStart(committed), fragments[0]).bundle), fragments[1..])
  }

  function AllOps(fragments: seq<seq<Op>>): seq<Op>
    decreases |fragments|
  {
    if fragments == [] then [] else fragments[0] + AllOps(fragments[1..])
  }

  function ReadInfo(db: Db, bundle: Bundle, a: Addr): Option<AccountInfo> {
    CacheOf(DbAt(db, a), Entry(bundle, a)).info
  }

  function ReadStorage(db: Db, bundle: Bundle, a: Addr, s: Slot): Value {
    ReadSlot(DbAt(db, a), CacheOf(DbAt(db, a), Entry(bundle, a)), s)
  }

  predicate SaneBundle(bundle: Bundle) {
    forall a :: a in bundle ==> Sane(bundle[a]) && !Unmodified(bundle[a].status)
  }

  /** Both bundles list the account or neither does, with the same status; one that the serial execution
      destroyed again may be destroyed for the first time in the merged bundle. */
  predicate SameStatus(serial: Option<Account>, merged: Option<Account>) {
    && (serial.Some? <==> merged.Some?)
    && (serial.Some? ==>
          || merged.value.status == serial.value.status
          || (serial.value.status == DestroyedAgain && merged.value.status == Destroyed))
  }

  lemma RecordKeepsStatus(db: DbAccount, committed: Option<Account>, entry: Option<Account>, serial: Account,
                          own: Option<Account>, fragment: Account, e: Effect)
    requires AccountAgrees(db, committed, entry, serial, own, fragment)
    ensures SameStatus(Record(entry, serial, e), ExtendEntry(committed, Record(own, fragment, e)))
  {}

  /** One account under both executions: the serial bundle entry describes the serial cache, the
      fragment's cache simulates it, and the merged entry describes the fragment's cache. */
  ghost predicate AccountAgrees(db: DbAccount, committed: Option<Account>, entry: Option<Account>, serial: Account,
                                own: Option<Account>, fragment: Account) {
    && Describes(db, entry, serial)
    && (entry.Some? ==> entry.value.status == serial.status)
    && Simulates(db, serial, fragment)
    && FragmentInv(db, committed, own, fragment)
    && SameStatus(entry, ExtendEntry(committed, own))
  }

  lemma EffectAgrees(db: DbAccount, committed: Option<Account>, entry: Option<Account>, serial: Account,
                     own: Option<Account>, fragment: Account, e: Effect)
    requires AccountAgrees(db, committed, entry, serial, own, fragment) && Possible(db, serial, e)
    ensures AccountAgrees(db, committed, Record(entry, serial, e), Apply(serial, e),
                          Record(own, fragment, e), Apply(fragment, e))
  {
    ApplySimulates(db, serial, fragment, e);
    SerialRecord(db, entry, serial, e);
    FragmentRecord(db, committed, own, fragment, e);
    RecordKeepsStatus(db, committed, entry, serial, own, fragment, e);
  }

  ghost predicate Agree(db: Db, committed: Bundle, serial: Execution, fragment: Execution, a: Addr) {
    AccountAgrees(DbAt(db, a), Entry(committed, a), Entry(serial.bundle, a), Cached(db, serial, a),
                  Entry(fragment.bundle, a), Cached(db, fragment, a))
  }

  lemma CommitOpAt(db: Db, x: Execution, op: Op, a: Addr)
    ensures Entry(CommitOp(db, x, op).bundle, a)
         == if a == op.addr then Record(Entry(x.bundle, a), Cached(db, x, a), op.effect) else Entry(x.bundle, a)
    ensures Cached(db, CommitOp(db, x, op), a)
         == if a == op.addr then Apply(Cached(db, x, a), op.effect) else Cached(db, x, a)
  {}

  lemma CommitOpAgreesAt(db: Db, committed: Bundle, serial: Execution, fragment: Execution, op: Op, a: Addr)
    requires Agree(db, committed, serial, fragment, a)
    requires Possible(DbAt(db, op.addr), Cached(db, serial, op.addr), op.effect)
    ensures Agree(db, committed, CommitOp(db, serial, op), CommitOp(db, fragment, op), a)
  {
    CommitOpAt(db, serial, op, a);
    CommitOpAt(db, fragment, op, a);
    if a == op.addr {
      EffectAgrees(DbAt(db, a), Entry(committed, a), Entry(serial.bundle, a), Cached(db, serial, a),
                   Entry(fragment.bundle, a), Cached(db, fragment, a), op.effect);
    }
  }

  lemma CommitOpAgrees(db: Db, committed: Bundle, serial: Execution, fragment: Execution, op: Op)
    requires forall a :: Agree(db, committed, serial, fragment, a)
    requires Possible(DbAt(db, op.addr), Cached(db, serial, op.addr), op.effect)
    ensures forall a :: Agree(db, committed, CommitOp(db, serial, op), CommitOp(db, fragment, op), a)
  {
    forall a ensures Agree(db, committed, CommitOp(db, serial, op), CommitOp(db, fragment, op), a) {
      CommitOpAgreesAt(db, committed, serial, fragment, op, a);
    }
  }

  lemma {:induction false} RunOpsAgree(db: Db, committed: Bundle, serial: Execution, fragment: Execution, ops: seq<Op>)
    requires forall a :: Agree(db, committed, serial, fragment, a)
    requires PossibleOps(db, serial, ops)
    ensures forall a :: Agree(db, committed, RunOps(db, serial, ops), RunOps(db, fragment, ops), a)
    decreases |ops|
  {
    if ops != [] {
      CommitOpAgrees(db, committed, serial, fragment, ops[0]);
      RunOpsAgree(db, committed, CommitOp(db, serial, ops[0]), CommitOp(db, fragment, ops[0]), ops[1..]);
    }
  }

  lemma {:induction false} RunOpsAppend(db: Db, x: Execution, a: seq<Op>, b: seq<Op>)
    ensures RunOps(db, x, a + b) == RunOps(db, RunOps(db, x, a), b)
    ensures PossibleOps(db, x, a + b) ==> PossibleOps(db, x, a) && PossibleOps(db, RunOps(db, x, a), b)
    decreases |a|
  {
    if a == [] {
      assert a + b == b;
    } else {
      assert (a + b)[1..] == a[1..] + b;
      RunOpsAppend(db, CommitOp(db, x, a[0]), a[1..], b);
    }
  }

  /** The start of the next fragment agrees with the serial execution so far. */
  lemma NextFragmentAgrees(db: Db, committed: Bundle, serial: Execution, fragment: Execution)
    requires forall a :: Agree(db, committed, serial, fragment, a)
    ensures var merged := ExtendBundle(committed, fragment.bundle);
            forall a :: Agree(db, merged, serial, FragmentStart(merged), a)
  {
    var merged := ExtendBundle(committed, fragment.bundle);
    forall a ensures Agree(db, merged, serial, FragmentStart(merged), a) {
      assert Agree(db, committed, serial, fragment, a);
      assert Entry(merged, a) == ExtendEntry(Entry(committed, a), Entry(fragment.bundle, a));
      NextFragmentSimulates(DbAt(db, a), Cached(db, serial, a), Entry(merged, a), Cached(db, fragment, a));
      assert Cached(db, FragmentStart(merged), a) == FragmentCacheOf(DbAt(db, a), Entry(merged, a));
    }
  }

  lemma {:induction false} FragmentsAgree(db: Db, committed: Bundle, serial: Execution, fragments: seq<seq<Op>>, a: Addr, s: Slot)
    requires forall b :: Agree(db, committed, serial, FragmentStart(committed), b)
    requires PossibleOps(db, serial, AllOps(fragments))
    ensures var composed, expected := Fragments(db, committed, fragments), RunOps(db, serial, AllOps(fragments)).bundle;
            && ReadInfo(db, composed, a) == ReadInfo(db, expected, a)
            && ReadStorage(db, composed, a, s) == ReadStorage(db, expected, a, s)
            && SameStatus(Entry(expected, a), Entry(composed, a))
    decreases |fragments|
  {
    if fragments == [] {
      var d, start := DbAt(db, a), FragmentStart(committed);
      assert Agree(db, committed, serial, start, a);
      assert ReadSlot(d, Cached(db, serial, a), s) == ReadSlot(d, Cached(db, start, a), s);
      if a in committed {
        assert ReadSlot(d, committed[a], s) == ReadSlot(d, Prestate(committed[a]), s);
      }
      if a in serial.bundle {
        assert ReadSlot(d, serial.bundle[a], s) == ReadSlot(d, Cached(db, serial, a), s);
      }
    } else {
      var rest := AllOps(fragments[1..]);
      RunOpsAppend(db, serial, fragments[0], rest);
      RunOpsAgree(db, committed, serial, FragmentStart(committed), fragments[0]);
      var serial' := RunOps(db, serial, fragments[0]);
      var fragment := RunOps(db, FragmentStart(committed), fragments[0]);
      NextFragmentAgrees(db, committed, serial', fragment);
      FragmentsAgree(db, ExtendBundle(committed, fragment.bundle), serial', fragments[1..], a, s);
    }
  }

  lemma StartAgrees(db: Db, committed: Bundle)
    requires SaneBundle(committed)
    ensures forall a :: Agree(db, committed, SerialStart(committed), FragmentStart(committed), a)
  {}

  /** For every committed bundle and every sequence of fragments the EVM can produce, account info and
      every storage slot of the composed bundle read the same as after serial execution, through any
      pattern of destruction, re-creation and sparse writes across fragments, and the account has the same
      destruction status. */
  lemma FragmentsMatchSerial(db: Db, committed: Bundle, fragments: seq<seq<Op>>, a: Addr, s: Slot)
    requires SaneBundle(committed)
    requires PossibleOps(db, SerialStart(committed), AllOps(fragments))
    ensures var composed := Fragments(db, committed, fragments);
            var expected := RunOps(db, SerialStart(committed), AllOps(fragments)).bundle;
            && ReadInfo(db, composed, a) == ReadInfo(db, expected, a)
            && ReadStorage(db, composed, a, s) == ReadStorage(db, expected, a, s)
            && SameStatus(Entry(expected, a), Entry(composed, a))
  {
    StartAgrees(db, committed);
    FragmentsAgree(db, committed, SerialStart(committed), fragments, a, s);
  }

  /** The status rewrite is needed: started from the unchanged cache, a fragment that writes one slot
      of a re-created account makes the merge drop the account's other slots. */
  lemma WithoutRewriteSlotsAreLost()
    ensures var info := AccountInfo(1, 1, 1);
            var committed := Account(Some(info), map[0 := 1], DestroyedChanged);
            var write := Change(info, map[1 := 7]);
            var db := DbAccount(None, map[]);
            var plain := Extend(committed, Record(None, committed, write).value);
            var rewritten := Extend(committed, Record(None, Prestate(committed), write).value);
            && ReadSlot(db, Apply(committed, write), 0) == 1
            && ReadSlot(db, plain, 0) == 0
            && ReadSlot(db, rewritten, 0) == 1
  {}

  // ---------------------------------------------------------------------------------------------
  // Appending a flashblock
  // ---------------------------------------------------------------------------------------------

  type Contracts = map<nat, nat>

  datatype BundleState = BundleState(state: Bundle, contracts: Contracts, reverts: seq<Transition>)

  method ExtendAccount(committed: Option<Account>, other: Account) returns (account: Account)
    ensures Some(account) == ExtendEntry(committed, Some(other))
  {
    if committed.None? { return other; }
    var storage := if WasDestroyed(other.status) then other.storage else committed.value.storage + other.storage;
    account := Account(other.info, storage, Transitioned(committed.value.status, other.status));
  }

  lemma SameEntries(x: Bundle, y: Bundle)
    requires forall a :: Entry(x, a) == Entry(y, a)
    ensures x == y
  {
    forall a ensures a in x <==> a in y ensures a in x ==> x[a] == y[a] {
      assert Entry(x, a) == Entry(y, a);
    }
  }

  lemma ExtendBundleAt(committed: Bundle, next: Bundle, a: Addr)
    ensures Entry(ExtendBundle(committed, next), a) == ExtendEntry(Entry(committed, a), Entry(next, a))
  {}

  method ExtendState(committed: Bundle, next: Bundle) returns (state: Bundle)
    ensures state == ExtendBundle(committed, next)
  {
    state := committed;
    var todo := next.Keys;
    while todo != {}
      invariant todo <= next.Keys
      invariant forall a :: Entry(state, a) == if a in todo then Entry(committed, a) else ExtendEntry(Entry(committed, a), Entry(next, a))
      decreases |todo|
    {
      var a :| a in todo;
      var account := ExtendAccount(Entry(state, a), next[a]);
      state := state[a := account];
      todo := todo - {a};
    }
    forall a ensures Entry(state, a) == Entry(ExtendBundle(committed, next), a) {
      ExtendBundleAt(committed, next, a);
    }
    SameEntries(state, ExtendBundle(committed, next));
  }

  /** What appending `next` to `committed` may give: the merged state, all contracts, and one transition that
      lists the flattened reverts in some order. The reverts of `next` are those the merge leaves, after any
      adjustment it makes to the records of wiped accounts. */
  ghost predicate Appended(committed: BundleState, next: BundleState, bundle: BundleState) {
    && bundle.state == ExtendBundle(committed.state, next.state)
    && bundle.contracts == committed.contracts + next.contracts
    && |bundle.reverts| == 1 && Lists(bundle.reverts[0], Flatten(committed.reverts + next.reverts))
  }

  /** Clones the committed bundle, merges the next one account by account, adds its contracts, appends its
      reverts and flattens them. */
  method ExtendFlashblockBundle(committed: BundleState, next: BundleState) returns (bundle: BundleState)
    ensures Appended(committed, next, bundle)
  {
    var state := ExtendState(committed.state, next.state);
    var reverts := FlattenReverts(committed.reverts + next.reverts);
    bundle := BundleState(state, committed.contracts + next.contracts, reverts);
  }

  // ---------------------------------------------------------------------------------------------
  // A whole block of flashblocks
  // ---------------------------------------------------------------------------------------------

  /** A flashblock: its effects, the contracts it deploys and the undo records it contributes, as they stand
      when the bundles have been merged. */
  datatype Flashblock = Flashblock(ops: seq<Op>, contracts: Contracts, reverts: seq<Transition>)

  /** The flashblock executed from the cache prestate of the committed bundle, on a bundle of its own. */
  function Executed(db: Db, committed: BundleState, fb: Flashblock): BundleState {
    BundleState(RunOps(db, FragmentStart(committed.state), fb.ops).bundle, fb.contracts, fb.reverts)
  }

  /** `chain[k]` is committed before flashblock `k`, and each bundle is appended to the one before. */
  ghost predicate Composed(db: Db, chain: seq<BundleState>, fbs: seq<Flashblock>) {
    |chain| == |fbs| + 1 && forall k :: 0 <= k < |fbs| ==> AppendedAt(db, chain, fbs, k)
  }

  ghost predicate AppendedAt(db: Db, chain: seq<BundleState>, fbs: seq<Flashblock>, k: nat)
    requires k < |fbs| && |chain| == |fbs| + 1
  {
    Appended(chain[k], Executed(db, chain[k], fbs[k]), chain[k + 1])
  }

  function OpsOf(fbs: seq<Flashblock>): seq<seq<Op>> {
    seq(|fbs|, i requires 0 <= i < |fbs| => fbs[i].ops)
  }

  /** The records of the first `k` flashblocks. */
  function RevertsTo(fbs: seq<Flashblock>, k: nat): seq<Transition>
    requires k <= |fbs|
  {
    if k == 0 then [] else RevertsTo(fbs, k - 1) + fbs[k - 1].reverts
  }

  function RevertsOf(fbs: seq<Flashblock>): seq<Transition> {
    RevertsTo(fbs, |fbs|)
  }

  lemma {:induction false} ComposedState(db: Db, chain: seq<BundleState>, fbs: seq<Flashblock>)
    requires Composed(db, chain, fbs)
    ensures chain[|fbs|].state == Fragments(db, chain[0].state, OpsOf(fbs))
    decreases |fbs|
  {
    if fbs != [] {
      forall k | 0 <= k < |fbs[1..]| ensures AppendedAt(db, chain[1..], fbs[1..], k) {
        assert AppendedAt(db, chain, fbs, k + 1);
      }
      ComposedState(db, chain[1..], fbs[1..]);
      assert AppendedAt(db, chain, fbs, 0);
      assert OpsOf(fbs)[1..] == OpsOf(fbs[1..]);
    }
  }

  /** Appending to a bundle whose one record stands for `before` gives the record of everything. */
  lemma OneMoreRecord(before: seq<Transition>, committed: BundleState, next: BundleState, bundle: BundleState)
    requires Appended(committed, next, bundle)
    requires committed.reverts == before || (|committed.reverts| == 1 && Lists(committed.reverts[0], Flatten(before)))
    ensures |bundle.reverts| == 1 && Lists(bundle.reverts[0], Flatten(before + next.reverts))
  {
    if committed.reverts != before {
      assert committed.reverts == [committed.reverts[0]];
      FlattenOneMore(before, committed.reverts[0], next.reverts, bundle.reverts[0]);
    }
  }

  lemma {:induction false} ComposedReverts(db: Db, chain: seq<BundleState>, fbs: seq<Flashblock>, k: nat)
    requires Composed(db, chain, fbs) && 0 < k <= |fbs|
    ensures |chain[k].reverts| == 1
    ensures Lists(chain[k].reverts[0], Flatten(chain[0].reverts + RevertsTo(fbs, k)))
  {
    var before := chain[0].reverts + RevertsTo(fbs, k - 1);
    if k == 1 {
      assert before == chain[0].reverts;
    } else {
      ComposedReverts(db, chain, fbs, k - 1);
    }
    assert AppendedAt(db, chain, fbs, k - 1);
    OneMoreRecord(before, chain[k - 1], Executed(db, chain[k - 1], fbs[k - 1]), chain[k]);
    assert before + fbs[k - 1].reverts == chain[0].reverts + RevertsTo(fbs, k);
  }

  /** The contracts known after the first `k` flashblocks. */
  function ContractsTo(known: Contracts, fbs: seq<Flashblock>, k: nat): Contracts
    requires k <= |fbs|
  {
    if k == 0 then known else ContractsTo(known, fbs, k - 1) + fbs[k - 1].contracts
  }

  lemma {:induction false} ComposedContracts(db: Db, chain: seq<BundleState>, fbs: seq<Flashblock>, k: nat)
    requires Composed(db, chain, fbs) && k <= |fbs|
    ensures chain[k].contracts == ContractsTo(chain[0].contracts, fbs, k)
  {
    if k > 0 {
      ComposedContracts(db, chain, fbs, k - 1);
      assert AppendedAt(db, chain, fbs, k - 1);
    }
  }

  /** After any number of flashblocks the composed bundle reads as the serial execution does, lists the same
      accounts with the same destruction status, knows every contract, and carries one transition that is the
      flattening of all undo records produced on the way. */
  lemma FlashblocksMatchSerial(db: Db, chain: seq<BundleState>, fbs: seq<Flashblock>, a: Addr, s: Slot)
    requires Composed(db, chain, fbs) && fbs != [] && SaneBundle(chain[0].state)
    requires PossibleOps(db, SerialStart(chain[0].state), AllOps(OpsOf(fbs)))
    ensures var last := chain[|fbs|];
            var serial := RunOps(db, SerialStart(chain[0].state), AllOps(OpsOf(fbs))).bundle;
            && ReadInfo(db, last.state, a) == ReadInfo(db, serial, a)
            && ReadStorage(db, last.state, a, s) == ReadStorage(db, serial, a, s)
            && SameStatus(Entry(serial, a), Entry(last.state, a))
            && last.contracts == ContractsTo(chain[0].contracts, fbs, |fbs|)
            && |last.reverts| == 1 && Lists(last.reverts[0], Flatten(chain[0].reverts + RevertsOf(fbs)))
  {
    ComposedState(db, chain, fbs);
    ComposedReverts(db, chain, fbs, |fbs|);
    ComposedContracts(db, chain, fbs, |fbs|);
    FragmentsMatchSerial(db, chain[0].state, OpsOf(fbs), a, s);
  }

  /** The composed record undoes the serial execution: when each flashblock's own records undo what it did to
      the account, undoing the single record on the state the serial execution ended in gives back the
      account's info and status before the block, and a slot if and only if its history flattens. */
  lemma ComposedRecordUndoesSerial(db: Db, chain: seq<BundleState>, fbs: seq<Flashblock>, a: Addr, s: Slot,
                                   states: seq<AccountState>, r: AccountRevert)
    requires Composed(db, chain, fbs) && fbs != [] && SaneBundle(chain[0].state)
    requires PossibleOps(db, SerialStart(chain[0].state), AllOps(OpsOf(fbs)))
    requires var h := History(Entries(chain[0].reverts + RevertsOf(fbs)), a);
             && SelfUndoing(DbAt(db, a).storage, h, states, s)
             && states[|h|].info == ReadInfo(db, chain[|fbs|].state, a)
             && At(states[|h|].slots, s) == ReadStorage(db, chain[|fbs|].state, a, s)
    requires |chain[|fbs|].reverts| == 1 && (a, r) in chain[|fbs|].reverts[0]
    ensures var serial := RunOps(db, SerialStart(chain[0].state), AllOps(OpsOf(fbs))).bundle;
            var h, stored := History(Entries(chain[0].reverts + RevertsOf(fbs)), a), At(DbAt(db, a).storage, s);
            && UndoInfo(r, ReadInfo(db, serial, a)) == states[0].info
            && r.previous == states[0].status
            && (UndoSlot(r, stored, s, ReadStorage(db, serial, a, s)) == At(states[0].slots, s) <==> FlattensSlot(h, stored, s))
  {
    var entries := Entries(chain[0].reverts + RevertsOf(fbs));
    FlashblocksMatchSerial(db, chain, fbs, a, s);
    FlattenAt(entries, a);
    assert r == MergeAll(History(entries, a));
    FlattenedUndoRestores(DbAt(db, a).storage, History(entries, a), states, s);
  }

  /** The history of an account in one flashblock's own records. */
  function OwnHistory(fb: Flashblock, a: Addr): seq<AccountRevert> {
    History(Entries(fb.reverts), a)
  }

  /** The flashblock's own records, undone from last to first, lead from what the bundle after it reads back to
      what the bundle before it reads. */
  predicate UndoesItself(db: Db, before: BundleState, fb: Flashblock, after: BundleState, a: Addr, s: Slot) {
    && UndoInfoAll(OwnHistory(fb, a), ReadInfo(db, after.state, a)) == ReadInfo(db, before.state, a)
    && UndoSlotAll(OwnHistory(fb, a), At(DbAt(db, a).storage, s), s, ReadStorage(db, after.state, a, s))
       == ReadStorage(db, before.state, a, s)
  }

  /** Every flashblock of the block does so. */
  predicate EachUndoesItself(db: Db, chain: seq<BundleState>, fbs: seq<Flashblock>, a: Addr, s: Slot) {
    |chain| == |fbs| + 1 && forall k :: 0 <= k < |fbs| ==> UndoesItselfAt(db, chain, fbs, k, a, s)
  }

  predicate UndoesItselfAt(db: Db, chain: seq<BundleState>, fbs: seq<Flashblock>, k: nat, a: Addr, s: Slot)
    requires k < |fbs| && |chain| == |fbs| + 1
  {
    UndoesItself(db, chain[k], fbs[k], chain[k + 1], a, s)
  }

  lemma {:induction false} FlashblocksUndo(db: Db, chain: seq<BundleState>, fbs: seq<Flashblock>, a: Addr, s: Slot, k: nat)
    requires EachUndoesItself(db, chain, fbs, a, s) && k <= |fbs|
    ensures var h := History(Entries(RevertsTo(fbs, k)), a);
            && UndoInfoAll(h, ReadInfo(db, chain[k].state, a)) == ReadInfo(db, chain[0].state, a)
            && UndoSlotAll(h, At(DbAt(db, a).storage, s), s, ReadStorage(db, chain[k].state, a, s)) == ReadStorage(db, chain[0].state, a, s)
  {
    if k > 0 {
      var before, fb := RevertsTo(fbs, k - 1), fbs[k - 1];
      FlashblocksUndo(db, chain, fbs, a, s, k - 1);
      EntriesAppend(before, fb.reverts);
      HistoryAppend(Entries(before), Entries(fb.reverts), a);
      UndoAllAppend(History(Entries(before), a), OwnHistory(fb, a), ReadInfo(db, chain[k].state, a), At(DbAt(db, a).storage, s), s,
                    ReadStorage(db, chain[k].state, a, s));
      assert UndoesItselfAt(db, chain, fbs, k - 1, a, s);
    }
  }

  /** A block of flashblocks, each of whose records undo what it did itself: undoing the single composed record
      on the state the serial execution ended in gives back what the bundle before the block reads. An account
      without a record has not changed; a slot comes back if and only if its history flattens. */
  lemma ComposedRecordUndoesBlock(db: Db, chain: seq<BundleState>, fbs: seq<Flashblock>, a: Addr, s: Slot)
    requires Composed(db, chain, fbs) && fbs != [] && SaneBundle(chain[0].state) && chain[0].reverts == []
    requires PossibleOps(db, SerialStart(chain[0].state), AllOps(OpsOf(fbs)))
    requires EachUndoesItself(db, chain, fbs, a, s)
    ensures var serial := RunOps(db, SerialStart(chain[0].state), AllOps(OpsOf(fbs))).bundle;
            var h, stored := History(Entries(RevertsOf(fbs)), a), At(DbAt(db, a).storage, s);
            var info, v := ReadInfo(db, serial, a), ReadStorage(db, serial, a, s);
            var info0, v0 := ReadInfo(db, chain[0].state, a), ReadStorage(db, chain[0].state, a, s);
            && |chain[|fbs|].reverts| == 1 && Lists(chain[|fbs|].reverts[0], Flatten(RevertsOf(fbs)))
            && (a !in Flatten(RevertsOf(fbs)) ==> info == info0 && v == v0)
            && (a in Flatten(RevertsOf(fbs)) ==>
                  var r := Flatten(RevertsOf(fbs))[a];
                  UndoInfo(r, info) == info0 && (UndoSlot(r, stored, s, v) == v0 <==> FlattensSlot(h, stored, s)))
  {
    var h := History(Entries(RevertsOf(fbs)), a);
    assert [] + RevertsOf(fbs) == RevertsOf(fbs);
    FlashblocksMatchSerial(db, chain, fbs, a, s);
    FlashblocksUndo(db, chain, fbs, a, s, |fbs|);
    FlattenAt(Entries(RevertsOf(fbs)), a);
    FlattenedUndo(h, ReadInfo(db, chain[|fbs|].state, a), At(DbAt(db, a).storage, s), s, ReadStorage(db, chain[|fbs|].state, a, s));
  }

  lemma FlattenedUndo(h: seq<AccountRevert>, info: Option<AccountInfo>, stored: Value, s: Slot, v: Value)
    ensures h == [] ==> UndoInfoAll(h, info) == info && UndoSlotAll(h, stored, s, v) == v
    ensures h != [] ==> UndoInfo(MergeAll(h), info) == UndoInfoAll(h, info)
    ensures h != [] ==> (UndoSlot(MergeAll(h), stored, s, v) == UndoSlotAll(h, stored, s, v) <==> FlattensSlot(h, stored, s))
  {
    if h != [] {
      FlattenedUndoInfo(h, info, h[0].previous);
      FlattenedUndoSlotIff(h, stored, s, v);
    }
  }

  /** The composed record and that of the serial execution are equal, whatever order they are listed in, if and
      only if for every account the fragments' records and the serial ones add the same to the record of the
      committed bundle. */
  lemma UndoRecordsEqualIff(db: Db, chain: seq<BundleState>, fbs: seq<Flashblock>, serialReverts: seq<Transition>)
    requires Composed(db, chain, fbs) && fbs != []
    ensures |chain[|fbs|].reverts| == 1
    ensures Lists(chain[|fbs|].reverts[0], Flatten(chain[0].reverts + serialReverts))
            <==> Alike(chain[0].reverts, RevertsOf(fbs), serialReverts)
  {
    ComposedReverts(db, chain, fbs, |fbs|);
    FlattenAlikeIff(chain[0].reverts, RevertsOf(fbs), serialReverts);
    var record, composed := chain[|fbs|].reverts[0], Flatten(chain[0].reverts + RevertsOf(fbs));
    var serial := Flatten(chain[0].reverts + serialReverts);
    ListsOnce(record, composed, serial);
    assert Lists(record, serial) <==> composed == serial;
  }

  /** A listing determines its map. */
  lemma ListsOnce(t: Transition, m: map<Addr, AccountRevert>, n: map<Addr, AccountRevert>)
    requires Lists(t, m)
    ensures Lists(t, n) <==> m == n
  {
    if Lists(t, n) {
      forall a ensures a in m <==> a in n ensures a in m ==> m[a] == n[a] {
        if a in m { var i :| 0 <= i < |t| && t[i].0 == a; }
        if a in n { var i :| 0 <= i < |t| && t[i].0 == a; }
      }
    }
  }
}
