/** Post-state from a block access list (crates/primitives/src/access_list.rs). Keccak is treated as
    injective: hashed addresses and slots are represented by their preimages, a code hash by its code. */
module AccessLists {
  import opened Wrappers

  type Address = nat
  type Slot = nat
  type Value = nat
  type Code = seq<nat>

  datatype CodeHash = Keccak(code: Code)

  datatype Account = Account(balance: nat, nonce: nat, codeHash: Option<CodeHash>)

  predicate IsEmpty(a: Account) {
    a.balance == 0 && a.nonce == 0 && (a.codeHash.None? || a.codeHash.value == Keccak([]))
  }

  datatype Change<T> = Change(index: nat, post: T)

  datatype SlotChanges = SlotChanges(slot: Slot, changes: seq<Change<Value>>)

  datatype AccountChanges = AccountChanges(address: Address, storage: seq<SlotChanges>, readSlots: seq<Slot>,
                                           balance: seq<Change<nat>>, nonce: seq<Change<nat>>, code: seq<Change<Code>>)

  datatype PostState = PostState(accounts: map<Address, Option<Account>>, storages: map<Address, map<Slot, Value>>)

  /** Parent-state account lookup. */
  type Provider = Address -> Result<Option<Account>, string>

  // ---------------------------------------------------------------------------------------------
  // The implementation's selection by maximum index
  // ---------------------------------------------------------------------------------------------

  /** `max_by_key` on the access index: the last of the maximal changes. */
  function Latest<T>(cs: seq<Change<T>>): Option<Change<T>> {
    if cs == [] then None
    else
      var before, last := Latest(cs[..|cs| - 1]), cs[|cs| - 1];
      if before.None? || before.value.index <= last.index then Some(last) else before
  }

  predicate OnlyReads(c: AccountChanges) {
    c.storage == [] && c.balance == [] && c.nonce == [] && c.code == []
  }

  /** The account after the recorded changes, with omitted fields taken from `pre`. */
  function Fields(c: AccountChanges, pre: Option<Account>): Account {
    var balance, nonce, code := Latest<nat>(c.balance), Latest<nat>(c.nonce), Latest<Code>(c.code);
    Account(if balance.Some? then balance.value.post else if pre.Some? then pre.value.balance else 0,
            if nonce.Some? then nonce.value.post else if pre.Some? then pre.value.nonce else 0,
            if code.Some? then Some(Keccak(code.value.post)) else if pre.Some? then pre.value.codeHash else None)
  }

  /** The latest value of every written slot. */
  function Writes(storage: seq<SlotChanges>): map<Slot, Value> {
    if storage == [] then map[]
    else
      var before, last := Writes(storage[..|storage| - 1]), storage[|storage| - 1];
      var latest := Latest<Value>(last.changes);
      if latest.Some? then before[last.slot := latest.value.post] else before
  }

  function Zeroed(m: map<Slot, Value>): map<Slot, Value> {
    map s | s in m :: 0
  }

  /** Storage of an account after its writes; an account that ends empty first has its committed slots
      set to zero. */
  function Overlay(committed: Option<map<Slot, Value>>, ended: bool, writes: map<Slot, Value>): Option<map<Slot, Value>> {
    var base := if ended && committed.Some? then Some(Zeroed(committed.value)) else committed;
    if writes == map[] then base else Some((if base.Some? then base.value else map[]) + writes)
  }

  /** What the post-state holds about one account: its leaf, if recorded, and its slots, if any. */
  datatype View = View(account: Option<Option<Account>>, storage: Option<map<Slot, Value>>)

  function At(st: PostState, a: Address): View {
    View(if a in st.accounts then Some(st.accounts[a]) else None, if a in st.storages then Some(st.storages[a]) else None)
  }

  function With(st: PostState, a: Address, v: View): PostState {
    PostState(if v.account.Some? then st.accounts[a := v.account.value] else st.accounts,
              if v.storage.Some? then st.storages[a := v.storage.value] else st.storages)
  }

  /** The committed account if there is one, else the parent's. It is looked up whenever a field is
      omitted, for read-only entries too. */
  function Prior(v: View, parent: Result<Option<Account>, string>, c: AccountChanges): Result<Option<Account>, string> {
    if c.balance != [] && c.nonce != [] && c.code != [] then Success(None)
    else if v.account.Some? then Success(v.account.value)
    else parent
  }

  function Effect(c: AccountChanges, v: View, parent: Result<Option<Account>, string>): Result<View, string> {
    match Prior(v, parent, c)
    case Failure(e) => Failure(e)
    case Success(pre) =>
      if OnlyReads(c) then Success(v)
      else
        var account := Fields(c, pre);
        Success(View(Some(if IsEmpty(account) then None else Some(account)),
                     Overlay(v.storage, IsEmpty(account), Writes(c.storage))))
  }

  function Extend(provider: Provider, st: PostState, list: seq<AccountChanges>): Result<PostState, string>
    decreases |list|
  {
    if list == [] then Success(st)
    else
      var c := list[0];
      match Effect(c, At(st, c.address), provider(c.address))
      case Failure(e) => Failure(e)
      case Success(v) => Extend(provider, With(st, c.address, v), list[1..])
  }

  // ---------------------------------------------------------------------------------------------
  // Replay in access-index order
  // ---------------------------------------------------------------------------------------------

  /** The writes recorded for one index, in list order. */
  function ReplayAt<T>(cs: seq<Change<T>>, now: Option<T>, i: nat): (r: Option<T>)
    ensures now.Some? ==> r.Some?
  {
    if cs == [] then now
    else
      var before := ReplayAt(cs[..|cs| - 1], now, i);
      if cs[|cs| - 1].index == i then Some(cs[|cs| - 1].post) else before
  }

  function ReplayTo<T>(cs: seq<Change<T>>, now: Option<T>, n: nat): (r: Option<T>)
    ensures now.Some? ==> r.Some?
  {
    if n == 0 then now else ReplayAt(cs, ReplayTo(cs, now, n - 1), n - 1)
  }

  predicate Below<T>(cs: seq<Change<T>>, n: nat) {
    forall k :: 0 <= k < |cs| ==> cs[k].index < n
  }

  /** The last write before index `n`. */
  function LatestBefore<T>(cs: seq<Change<T>>, n: nat): Option<Change<T>> {
    if cs == [] then None
    else
      var before, last := LatestBefore(cs[..|cs| - 1], n), cs[|cs| - 1];
      if last.index < n && (before.None? || before.value.index <= last.index) then Some(last) else before
  }

  lemma {:induction false} LatestBeforeAll<T>(cs: seq<Change<T>>, n: nat)
    requires Below(cs, n)
    ensures LatestBefore(cs, n) == Latest(cs)
  {
    if cs != [] { LatestBeforeAll(cs[..|cs| - 1], n); }
  }

  lemma {:induction false} LatestBeforeStep<T>(cs: seq<Change<T>>, now: Option<T>, n: nat)
    ensures LatestBefore(cs, 0) == None
    ensures LatestBefore(cs, n).Some? ==> LatestBefore(cs, n).value.index < n
    ensures var prev, next := LatestBefore(cs, n), LatestBefore(cs, n + 1);
            var start := if prev.Some? then Some(prev.value.post) else now;
            ReplayAt(cs, start, n) == if next.Some? then Some(next.value.post) else now
    ensures var prev, next := LatestBefore(cs, n), LatestBefore(cs, n + 1);
            if next.Some? && next.value.index == n then forall x :: ReplayAt(cs, x, n) == Some(next.value.post)
            else next == prev && forall x :: ReplayAt(cs, x, n) == x
  {
    if cs != [] { LatestBeforeStep(cs[..|cs| - 1], now, n); }
  }

  /** Replaying a field in index order ends with the change of maximal index. */
  lemma {:induction false} ReplayIsLatest<T>(cs: seq<Change<T>>, now: Option<T>, n: nat)
    ensures var latest := LatestBefore(cs, n);
            ReplayTo(cs, now, n) == if latest.Some? then Some(latest.value.post) else now
    decreases n
  {
    if n == 0 {
      LatestBeforeStep(cs, now, 0);
    } else {
      ReplayIsLatest(cs, now, n - 1);
      LatestBeforeStep(cs, now, n - 1);
    }
  }

  /** An account during replay, with the slots written so far. */
  datatype Replayed = Replayed(account: Account, slots: map<Slot, Value>)

  function Hashed(cs: seq<Change<Code>>): seq<Change<CodeHash>> {
    seq(|cs|, k requires 0 <= k < |cs| => Change(cs[k].index, Keccak(cs[k].post)))
  }

  function Lookup(m: map<Slot, Value>, s: Slot): Option<Value> {
    if s in m then Some(m[s]) else None
  }

  function ReplaySlots(storage: seq<SlotChanges>, slots: map<Slot, Value>, i: nat): map<Slot, Value> {
    if storage == [] then slots
    else
      var before, last := ReplaySlots(storage[..|storage| - 1], slots, i), storage[|storage| - 1];
      var v := ReplayAt<Value>(last.changes, Lookup(before, last.slot), i);
      if v.Some? then before[last.slot := v.value] else before
  }

  /** Applies every write an account's entry records for index `i`. */
  function ReplayEntry(c: AccountChanges, r: Replayed, i: nat): Replayed {
    Replayed(Account(ReplayAt<nat>(c.balance, Some(r.account.balance), i).value,
                     ReplayAt<nat>(c.nonce, Some(r.account.nonce), i).value,
                     ReplayAt<CodeHash>(Hashed(c.code), r.account.codeHash, i)),
             ReplaySlots(c.storage, r.slots, i))
  }

  /** Applies every write the list records for index `i`, across all accounts. */
  function ReplayIndex(list: seq<AccountChanges>, w: map<Address, Replayed>, i: nat): map<Address, Replayed> {
    if list == [] then w
    else
      var before, c := ReplayIndex(list[..|list| - 1], w, i), list[|list| - 1];
      if c.address in before then before[c.address := ReplayEntry(c, before[c.address], i)] else before
  }

  /** Replays the whole list in ascending index order, up to but excluding index `n`. */
  function Replay(list: seq<AccountChanges>, w: map<Address, Replayed>, n: nat): map<Address, Replayed> {
    if n == 0 then w else ReplayIndex(list, Replay(list, w, n - 1), n - 1)
  }

  predicate AllBelow(c: AccountChanges, n: nat) {
    && Below(c.balance, n) && Below(c.nonce, n) && Below(c.code, n)
    && forall k :: 0 <= k < |c.storage| ==> Below(c.storage[k].changes, n)
  }

  predicate UniqueSlots(storage: seq<SlotChanges>) {
    forall i, j :: 0 <= i < j < |storage| ==> storage[i].slot != storage[j].slot
  }

  predicate UniqueAddresses(list: seq<AccountChanges>) {
    forall i, j :: 0 <= i < j < |list| ==> list[i].address != list[j].address
  }

  function ReplayEntryTo(c: AccountChanges, r: Replayed, n: nat): Replayed {
    if n == 0 then r else ReplayEntry(c, ReplayEntryTo(c, r, n - 1), n - 1)
  }

  lemma {:induction false} ReplayIndexAbsent(list: seq<AccountChanges>, w: map<Address, Replayed>, a: Address, i: nat)
    requires a in w && forall k :: 0 <= k < |list| ==> list[k].address != a
    ensures ReplayIndex(list, w, i).Keys == w.Keys && ReplayIndex(list, w, i)[a] == w[a]
  {
    if list != [] { ReplayIndexAbsent(list[..|list| - 1], w, a, i); }
  }

  lemma {:induction false} ReplayIndexAt(list: seq<AccountChanges>, w: map<Address, Replayed>, k: nat, i: nat)
    requires UniqueAddresses(list) && k < |list| && list[k].address in w
    ensures ReplayIndex(list, w, i).Keys == w.Keys
    ensures ReplayIndex(list, w, i)[list[k].address] == ReplayEntry(list[k], w[list[k].address], i)
  {
    var n := |list| - 1;
    if k == n {
      ReplayIndexAbsent(list[..n], w, list[k].address, i);
    } else {
      ReplayIndexAt(list[..n], w, k, i);
    }
  }

  /** Accounts do not interfere: the global replay projects to each account's own replay. */
  lemma {:induction false} ReplayProjects(list: seq<AccountChanges>, w: map<Address, Replayed>, k: nat, n: nat)
    requires UniqueAddresses(list) && k < |list| && list[k].address in w
    ensures Replay(list, w, n).Keys == w.Keys
    ensures Replay(list, w, n)[list[k].address] == ReplayEntryTo(list[k], w[list[k].address], n)
    decreases n
  {
    if n > 0 {
      ReplayProjects(list, w, k, n - 1);
      ReplayIndexAt(list, Replay(list, w, n - 1), k, n - 1);
    }
  }

  lemma {:induction false} ReplayFieldsTo(c: AccountChanges, r: Replayed, n: nat)
    ensures var a := ReplayEntryTo(c, r, n).account;
            && a.balance == ReplayTo<nat>(c.balance, Some(r.account.balance), n).value
            && a.nonce == ReplayTo<nat>(c.nonce, Some(r.account.nonce), n).value
            && a.codeHash == ReplayTo<CodeHash>(Hashed(c.code), r.account.codeHash, n)
    decreases n
  {
    if n > 0 { ReplayFieldsTo(c, r, n - 1); }
  }

  lemma {:induction false} LatestHashed(cs: seq<Change<Code>>)
    ensures var h, l := Latest<CodeHash>(Hashed(cs)), Latest<Code>(cs);
            if l.Some? then h == Some(Change(l.value.index, Keccak(l.value.post))) else h == None
  {
    if cs != [] {
      assert Hashed(cs)[..|cs| - 1] == Hashed(cs[..|cs| - 1]);
      LatestHashed(cs[..|cs| - 1]);
    }
  }

  function Post<T>(c: Option<Change<T>>): Option<T> {
    if c.Some? then Some(c.value.post) else None
  }

  /** All changes listed for a slot, in list order. */
  function ChangesOf(storage: seq<SlotChanges>, s: Slot): seq<Change<Value>> {
    if storage == [] then []
    else
      var last := storage[|storage| - 1];
      ChangesOf(storage[..|storage| - 1], s) + if last.slot == s then last.changes else []
  }

  /** The changes of the last non-empty listing of a slot. */
  function LastListing(storage: seq<SlotChanges>, s: Slot): seq<Change<Value>> {
    if storage == [] then []
    else
      var last := storage[|storage| - 1];
      if last.slot == s && last.changes != [] then last.changes else LastListing(storage[..|storage| - 1], s)
  }

  /** For every slot the last listing ends with the value of the change with the greatest index. */
  ghost predicate Settled(storage: seq<SlotChanges>) {
    forall s :: SettledAt(storage, s)
  }

  predicate SettledAt(storage: seq<SlotChanges>, s: Slot) {
    Post(Latest<Value>(LastListing(storage, s))) == Post(Latest<Value>(ChangesOf(storage, s)))
  }

  lemma {:induction false} WritesLookup(storage: seq<SlotChanges>, s: Slot)
    ensures Lookup(Writes(storage), s) == Post(Latest<Value>(LastListing(storage, s)))
  {
    if storage != [] {
      WritesLookup(storage[..|storage| - 1], s);
      LatestExists<Value>(storage[|storage| - 1].changes);
    }
  }

  lemma {:induction false} ReplayAtAppend<T>(x: seq<Change<T>>, y: seq<Change<T>>, now: Option<T>, i: nat)
    ensures ReplayAt(x + y, now, i) == ReplayAt(y, ReplayAt(x, now, i), i)
  {
    if y == [] {
      assert x + y == x;
    } else {
      assert (x + y)[..|x + y| - 1] == x + y[..|y| - 1];
      ReplayAtAppend(x, y[..|y| - 1], now, i);
    }
  }

  lemma {:induction false} ReplaySlotsAt(storage: seq<SlotChanges>, slots: map<Slot, Value>, s: Slot, i: nat)
    ensures Lookup(ReplaySlots(storage, slots, i), s) == ReplayAt<Value>(ChangesOf(storage, s), Lookup(slots, s), i)
  {
    if storage != [] {
      var before, last := storage[..|storage| - 1], storage[|storage| - 1];
      ReplaySlotsAt(before, slots, s, i);
      ReplayAtAppend<Value>(ChangesOf(before, s), if last.slot == s then last.changes else [], Lookup(slots, s), i);
    }
  }

  lemma {:induction false} ReplaySlotsTo(c: AccountChanges, r: Replayed, s: Slot, n: nat)
    ensures Lookup(ReplayEntryTo(c, r, n).slots, s) == ReplayTo<Value>(ChangesOf(c.storage, s), Lookup(r.slots, s), n)
    decreases n
  {
    if n > 0 {
      ReplaySlotsTo(c, r, s, n - 1);
      ReplaySlotsAt(c.storage, ReplayEntryTo(c, r, n - 1).slots, s, n - 1);
    }
  }

  lemma {:induction false} ChangesBelow(storage: seq<SlotChanges>, s: Slot, n: nat)
    requires forall k :: 0 <= k < |storage| ==> Below(storage[k].changes, n)
    ensures Below(ChangesOf(storage, s), n)
  {
    if storage != [] { ChangesBelow(storage[..|storage| - 1], s, n); }
  }

  function Default(pre: Option<Account>): Account {
    if pre.Some? then pre.value else Account(0, 0, None)
  }

  lemma ReplayedFields(c: AccountChanges, pre: Option<Account>, n: nat)
    requires AllBelow(c, n)
    ensures ReplayEntryTo(c, Replayed(Default(pre), map[]), n).account == Fields(c, pre)
  {
    var r := Replayed(Default(pre), map[]);
    ReplayFieldsTo(c, r, n);
    ReplayIsLatest<nat>(c.balance, Some(r.account.balance), n);
    ReplayIsLatest<nat>(c.nonce, Some(r.account.nonce), n);
    ReplayIsLatest<CodeHash>(Hashed(c.code), r.account.codeHash, n);
    LatestBeforeAll<nat>(c.balance, n);
    LatestBeforeAll<nat>(c.nonce, n);
    LatestBeforeAll<CodeHash>(Hashed(c.code), n);
    LatestHashed(c.code);
  }

  lemma ReplayedSlot(c: AccountChanges, pre: Option<Account>, n: nat, s: Slot)
    requires AllBelow(c, n)
    ensures Lookup(ReplayEntryTo(c, Replayed(Default(pre), map[]), n).slots, s) == Post(Latest<Value>(ChangesOf(c.storage, s)))
  {
    var changes := ChangesOf(c.storage, s);
    ReplaySlotsTo(c, Replayed(Default(pre), map[]), s, n);
    ReplayIsLatest<Value>(changes, None, n);
    ChangesBelow(c.storage, s, n);
    LatestBeforeAll<Value>(changes, n);
  }

  /** One account, unsorted: selection by maximal index is the replay in index order, if and only if every
      slot's last listing settles it. */
  lemma ReplayEntryIsSelection(c: AccountChanges, pre: Option<Account>, n: nat)
    requires AllBelow(c, n)
    ensures var r := ReplayEntryTo(c, Replayed(Default(pre), map[]), n);
            && r.account == Fields(c, pre)
            && r.slots.Keys == Writes(c.storage).Keys
            && (r.slots == Writes(c.storage) <==> Settled(c.storage))
  {
    ReplayedFields(c, pre, n);
    var slots, writes := ReplayEntryTo(c, Replayed(Default(pre), map[]), n).slots, Writes(c.storage);
    forall s ensures s in slots <==> s in writes ensures Lookup(slots, s) == Lookup(writes, s) <==> SettledAt(c.storage, s) {
      ReplayedSlot(c, pre, n, s);
      WritesLookup(c.storage, s);
      ListedOrNot(c.storage, s);
    }
    if slots == writes {
      forall s ensures SettledAt(c.storage, s) { assert Lookup(slots, s) == Lookup(writes, s); }
    }
    if Settled(c.storage) {
      forall s | s in slots ensures slots[s] == writes[s] {
        assert SettledAt(c.storage, s);
        assert Lookup(slots, s) == Lookup(writes, s);
      }
    }
  }

  lemma {:induction false} ListedOrNot(storage: seq<SlotChanges>, s: Slot)
    ensures LastListing(storage, s) == [] <==> ChangesOf(storage, s) == []
    ensures Latest<Value>(LastListing(storage, s)).Some? <==> Latest<Value>(ChangesOf(storage, s)).Some?
  {
    LatestExists<Value>(LastListing(storage, s));
    LatestExists<Value>(ChangesOf(storage, s));
    if storage != [] { ListedOrNot(storage[..|storage| - 1], s); }
  }

  lemma {:induction false} Unlisted(storage: seq<SlotChanges>, s: Slot)
    requires forall k :: 0 <= k < |storage| ==> storage[k].slot != s
    ensures ChangesOf(storage, s) == []
  {
    if storage != [] { Unlisted(storage[..|storage| - 1], s); }
  }

  /** Listing every slot once settles all of them. */
  lemma {:induction false} UniqueSlotsSettle(storage: seq<SlotChanges>, s: Slot)
    requires UniqueSlots(storage)
    ensures LastListing(storage, s) == ChangesOf(storage, s)
  {
    if storage != [] {
      var before, last := storage[..|storage| - 1], storage[|storage| - 1];
      UniqueSlotsSettle(before, s);
      if last.slot == s {
        Unlisted(before, s);
        ListedOrNot(before, s);
      }
    }
  }

  lemma LatestOne<T>(c: Change<T>)
    ensures Latest([c]) == Some(c)
  {
    assert [c][..0] == [];
  }

  /** A slot listed once more, with an older change of another value: selection takes that last listing,
      replay the change of greatest index. */
  lemma OlderListingUnsettles(storage: seq<SlotChanges>, s: Slot, older: Change<Value>)
    requires var latest := Latest<Value>(ChangesOf(storage, s));
             latest.Some? && older.index < latest.value.index && older.post != latest.value.post
    ensures !Settled(storage + [SlotChanges(s, [older])])
    ensures Lookup(Writes(storage + [SlotChanges(s, [older])]), s) == Some(older.post)
  {
    var all, changes := storage + [SlotChanges(s, [older])], ChangesOf(storage, s);
    assert all[..|all| - 1] == storage;
    assert (changes + [older])[..|changes|] == changes;
    LatestOne<Value>(older);
    assert !SettledAt(all, s);
  }

  // ---------------------------------------------------------------------------------------------
  // The whole list
  // ---------------------------------------------------------------------------------------------

  lemma EffectStays(c: AccountChanges, st: PostState, parent: Result<Option<Account>, string>, a: Address)
    requires Effect(c, At(st, c.address), parent).Success?
    ensures var v := Effect(c, At(st, c.address), parent).value;
            At(With(st, c.address, v), a) == if a == c.address then v else At(st, a)
  {}

  /** The entry omits a field, the account was not committed before, and the parent cannot be read. */
  predicate Fails(provider: Provider, st: PostState, c: AccountChanges) {
    (c.balance == [] || c.nonce == [] || c.code == []) && c.address !in st.accounts && provider(c.address).Failure?
  }

  /** `result` holds every entry's effect on the state before the list, and everything else as it was. */
  ghost predicate ExtendsEach(provider: Provider, st: PostState, list: seq<AccountChanges>, result: PostState) {
    && (forall k :: 0 <= k < |list| ==>
          && !Fails(provider, st, list[k])
          && At(result, list[k].address) == Effect(list[k], At(st, list[k].address), provider(list[k].address)).value)
    && (forall a :: NotListed(list, a) ==> At(result, a) == At(st, a))
  }

  predicate NotListed(list: seq<AccountChanges>, a: Address) {
    forall k :: 0 <= k < |list| ==> list[k].address != a
  }

  /** With unique addresses every entry acts on the committed state alone; the list fails exactly when
      some entry needs a parent account that cannot be read. */
  lemma {:induction false} ExtendAt(provider: Provider, st: PostState, list: seq<AccountChanges>)
    requires UniqueAddresses(list)
    ensures Extend(provider, st, list).Failure? <==> exists k :: 0 <= k < |list| && Fails(provider, st, list[k])
    ensures Extend(provider, st, list).Success? ==> ExtendsEach(provider, st, list, Extend(provider, st, list).value)
    decreases |list|
  {
    if list != [] {
      var c, rest := list[0], list[1..];
      var effect := Effect(c, At(st, c.address), provider(c.address));
      if effect.Failure? {
        assert Fails(provider, st, list[0]);
      } else {
        var st' := With(st, c.address, effect.value);
        assert forall k :: 0 <= k < |rest| ==> rest[k] == list[k + 1] && rest[k].address != c.address;
        assert forall k :: 0 <= k < |rest| ==> Fails(provider, st', rest[k]) == Fails(provider, st, list[k + 1]);
        ExtendAt(provider, st', rest);
        if Extend(provider, st', rest).Success? {
          ExtendOneMore(provider, st, list, st', Extend(provider, st', rest).value);
        } else {
          var k :| 0 <= k < |rest| && Fails(provider, st', rest[k]);
          assert Fails(provider, st, list[k + 1]);
        }
      }
    }
  }

  lemma ExtendOneMore(provider: Provider, st: PostState, list: seq<AccountChanges>, st': PostState, result: PostState)
    requires UniqueAddresses(list) && list != [] && !Fails(provider, st, list[0])
    requires st' == With(st, list[0].address, Effect(list[0], At(st, list[0].address), provider(list[0].address)).value)
    requires ExtendsEach(provider, st', list[1..], result)
    ensures ExtendsEach(provider, st, list, result)
  {
    var c, rest := list[0], list[1..];
    assert NotListed(rest, c.address);
    EffectStays(c, st, provider(c.address), c.address);
    forall k | 0 < k < |list|
      ensures !Fails(provider, st, list[k])
      ensures At(result, list[k].address) == Effect(list[k], At(st, list[k].address), provider(list[k].address)).value
    {
      assert rest[k - 1] == list[k];
      EffectStays(c, st, provider(c.address), list[k].address);
    }
    forall a | NotListed(list, a) ensures At(result, a) == At(st, a) {
      assert NotListed(rest, a);
      EffectStays(c, st, provider(c.address), a);
    }
  }

  /** The account before the list: committed if recorded, else the parent's. */
  function Before(provider: Provider, st: PostState, a: Address): Option<Account> {
    if a in st.accounts then st.accounts[a]
    else if provider(a).Success? then provider(a).value
    else None
  }

  function StartWorld(provider: Provider, st: PostState, list: seq<AccountChanges>): map<Address, Replayed> {
    map c | c in list :: c.address := Replayed(Default(Before(provider, st, c.address)), map[])
  }

  /** `result` holds the replayed account: no leaf exactly if its balance and nonce ended at zero with no code or
      empty code. The committed slots that no replayed write touches are kept, and read zero exactly then. */
  ghost predicate HoldsAccount(st: PostState, result: PostState, a: Address, r: Replayed) {
    var ended := && r.account.balance == 0 && r.account.nonce == 0
                 && (r.account.codeHash.None? || r.account.codeHash.value.code == []);
    && a in result.accounts
    && result.accounts[a] == (if ended then None else Some(r.account))
    && (a in result.storages <==> a in st.storages || r.slots != map[])
    && forall s :: a in result.storages && s !in r.slots ==>
         Lookup(result.storages[a], s)
         == if a in st.storages && s in st.storages[a] then Some(if ended then 0 else st.storages[a][s]) else None
  }

  /** `result` holds the value of every slot the replay wrote. */
  predicate HoldsWrites(result: PostState, a: Address, r: Replayed) {
    forall s :: s in r.slots ==> a in result.storages && Lookup(result.storages[a], s) == Some(r.slots[s])
  }

  /** For unsorted lists with unique addresses, the post-state of every changed account is that of replaying all
      recorded writes in ascending access index over the committed-else-parent state, and its written slots are
      if and only if they are settled; accounts that are not listed, or listed without a change, are untouched;
      and the only failure is an unreadable parent account. */
  lemma ExtendIsReplay(provider: Provider, st: PostState, list: seq<AccountChanges>, n: nat)
    requires UniqueAddresses(list) && forall k :: 0 <= k < |list| ==> AllBelow(list[k], n)
    ensures Extend(provider, st, list).Failure? <==>
              exists k :: 0 <= k < |list| && Fails(provider, st, list[k])
    ensures Extend(provider, st, list).Success? ==>
              var result := Extend(provider, st, list).value;
              && (forall k :: 0 <= k < |list| ==>
                    if list[k].storage == [] && list[k].balance == [] && list[k].nonce == [] && list[k].code == []
                    then At(result, list[k].address) == At(st, list[k].address)
                    else EntryReplays(provider, st, result, list, k, n))
              && (forall a :: NotListed(list, a) ==> At(result, a) == At(st, a))
  {
    ExtendAt(provider, st, list);
    if Extend(provider, st, list).Success? {
      var result := Extend(provider, st, list).value;
      forall k | 0 <= k < |list| && OnlyReads(list[k]) ensures At(result, list[k].address) == At(st, list[k].address) {
        assert !Fails(provider, st, list[k]);
      }
      forall k | 0 <= k < |list| && !OnlyReads(list[k]) ensures EntryReplays(provider, st, result, list, k, n) {
        assert !Fails(provider, st, list[k]);
        EntryIsReplay(provider, st, result, list, k, n);
      }
    }
  }

  /** The result holds the account entry `k` is replayed to, and its slots exactly when they are settled. */
  ghost predicate EntryReplays(provider: Provider, st: PostState, result: PostState, list: seq<AccountChanges>, k: nat, n: nat)
    requires k < |list|
  {
    var replayed := Replay(list, StartWorld(provider, st, list), n);
    && list[k].address in replayed
    && HoldsAccount(st, result, list[k].address, replayed[list[k].address])
    && (HoldsWrites(result, list[k].address, replayed[list[k].address]) <==> Settled(list[k].storage))
  }

  lemma EntryIsReplay(provider: Provider, st: PostState, result: PostState, list: seq<AccountChanges>, k: nat, n: nat)
    requires UniqueAddresses(list) && k < |list| && !OnlyReads(list[k])
    requires AllBelow(list[k], n) && !Fails(provider, st, list[k])
    requires At(result, list[k].address) == Effect(list[k], At(st, list[k].address), provider(list[k].address)).value
    ensures EntryReplays(provider, st, result, list, k, n)
  {
    var c, start := list[k], StartWorld(provider, st, list);
    var a, pre := c.address, Before(provider, st, c.address);
    assert c in list;
    assert start[a] == Replayed(Default(pre), map[]);
    ReplayProjects(list, start, k, n);
    ReplayEntryIsSelection(c, pre, n);
    assert Fields(c, Prior(At(st, a), provider(a), c).value) == Fields(c, pre) by {
      LatestExists<nat>(c.balance);
      LatestExists<nat>(c.nonce);
      LatestExists<Code>(c.code);
    }
    HoldsIff(st, result, a, Replay(list, start, n)[a], Writes(c.storage));
  }

  /** The selected account is the replayed one, and the written slots are exactly if the writes are. */
  lemma HoldsIff(st: PostState, result: PostState, a: Address, r: Replayed, writes: map<Slot, Value>)
    requires writes.Keys == r.slots.Keys
    requires At(result, a) == View(Some(if IsEmpty(r.account) then None else Some(r.account)),
                                   Overlay(At(st, a).storage, IsEmpty(r.account), writes))
    ensures HoldsAccount(st, result, a, r)
    ensures HoldsWrites(result, a, r) <==> r.slots == writes
  {
    assert a in result.accounts;
    assert writes == map[] <==> r.slots == map[] by {
      assert writes == map[] <==> writes.Keys == {};
      assert r.slots == map[] <==> r.slots.Keys == {};
    }
    if HoldsWrites(result, a, r) {
      forall s | s in writes ensures writes[s] == r.slots[s] {
        assert a in result.storages && Lookup(result.storages[a], s) == Some(writes[s]);
      }
    }
  }

  lemma LatestExists<T>(cs: seq<Change<T>>)
    ensures Latest(cs).Some? <==> cs != []
  {}

  // ---------------------------------------------------------------------------------------------
  // Two lists in a row
  // ---------------------------------------------------------------------------------------------

  /** `m` records the changes of `x` followed by those of `y`, slot by slot, in any slot order. */
  ghost predicate IsMerge(m: AccountChanges, x: AccountChanges, y: AccountChanges) {
    && m.address == x.address == y.address
    && m.balance == x.balance + y.balance && m.nonce == x.nonce + y.nonce && m.code == x.code + y.code
    && Settled(m.storage)
    && (m.storage == [] <==> x.storage == [] && y.storage == [])
    && forall s :: ChangesOf(m.storage, s) == ChangesOf(x.storage, s) + ChangesOf(y.storage, s)
  }

  predicate Precedes<T>(x: seq<Change<T>>, y: seq<Change<T>>) {
    forall i, j :: 0 <= i < |x| && 0 <= j < |y| ==> x[i].index < y[j].index
  }

  /** Every index recorded by `y` is above every index recorded by `x`. */
  ghost predicate Follows(x: AccountChanges, y: AccountChanges) {
    && Precedes(x.balance, y.balance) && Precedes(x.nonce, y.nonce) && Precedes(x.code, y.code)
    && forall s :: Precedes(ChangesOf(x.storage, s), ChangesOf(y.storage, s))
  }

  lemma {:induction false} LatestIn<T>(cs: seq<Change<T>>)
    ensures Latest(cs).Some? ==> exists k :: 0 <= k < |cs| && cs[k] == Latest(cs).value
  {
    if cs != [] {
      var n := |cs| - 1;
      LatestIn(cs[..n]);
      if Latest(cs) == Some(cs[n]) {
      } else {
        var k :| 0 <= k < |cs[..n]| && cs[..n][k] == Latest(cs[..n]).value;
        assert cs[k] == Latest(cs).value;
      }
    }
  }

  lemma {:induction false} LatestAppend<T>(x: seq<Change<T>>, y: seq<Change<T>>)
    requires Precedes(x, y)
    ensures Latest(x + y) == if y == [] then Latest(x) else Latest(y)
  {
    if y == [] {
      assert x + y == x;
    } else {
      var n := |y| - 1;
      assert (x + y)[..|x + y| - 1] == x + y[..n];
      LatestAppend(x, y[..n]);
      LatestIn(x);
      LatestExists(y[..n]);
    }
  }

  lemma MergedWrites(m: AccountChanges, x: AccountChanges, y: AccountChanges)
    requires IsMerge(m, x, y) && Follows(x, y) && Settled(x.storage) && Settled(y.storage)
    ensures Writes(m.storage) == Writes(x.storage) + Writes(y.storage)
  {
    var wm, w := Writes(m.storage), Writes(x.storage) + Writes(y.storage);
    forall s ensures s in wm <==> s in w ensures s in wm ==> wm[s] == w[s] {
      WritesLookup(m.storage, s);
      WritesLookup(x.storage, s);
      WritesLookup(y.storage, s);
      assert SettledAt(m.storage, s) && SettledAt(x.storage, s) && SettledAt(y.storage, s);
      LatestAppend<Value>(ChangesOf(x.storage, s), ChangesOf(y.storage, s));
      LatestExists<Value>(ChangesOf(y.storage, s));
      assert Lookup(wm, s) == Lookup(w, s);
    }
  }

  /** Later fields over earlier ones. */
  lemma MergedFields(m: AccountChanges, x: AccountChanges, y: AccountChanges, pre: Option<Account>)
    requires IsMerge(m, x, y) && Follows(x, y)
    ensures Fields(m, pre) == Fields(y, Some(Fields(x, pre)))
  {
    LatestAppend<nat>(x.balance, y.balance);
    LatestAppend<nat>(x.nonce, y.nonce);
    LatestAppend<Code>(x.code, y.code);
    LatestExists<nat>(y.balance);
    LatestExists<nat>(y.nonce);
    LatestExists<Code>(y.code);
  }

  function PriorOf(v: View, parent: Option<Account>): Option<Account> {
    if v.account.Some? then v.account.value else parent
  }

  lemma EffectFields(c: AccountChanges, v: View, parent: Option<Account>)
    requires !OnlyReads(c)
    ensures var account := Fields(c, PriorOf(v, parent));
            Effect(c, v, Success(parent))
            == Success(View(Some(if IsEmpty(account) then None else Some(account)),
                            Overlay(v.storage, IsEmpty(account), Writes(c.storage))))
  {}

  function Committed(storage: Option<map<Slot, Value>>): map<Slot, Value> {
    if storage.Some? then storage.value else map[]
  }

  /** When applying `x` and then `y` to an account is the same as applying them merged. If the account
      ends empty, the first list's slots that the second does not rewrite must be zero; if it is only
      empty in between, the committed slots nobody rewrites must be zero and the intermediate account
      must not carry an explicit empty code hash that survives. */
  ghost predicate Compatible(x: AccountChanges, y: AccountChanges, v: View, parent: Option<Account>) {
    var between := Fields(x, PriorOf(v, parent));
    var ended := IsEmpty(Fields(y, Some(between)));
    var wx, wy := Writes(x.storage), Writes(y.storage);
    if ended then forall s :: s in wx && s !in wy ==> wx[s] == 0
    else if IsEmpty(between) then
      && (y.code == [] ==> between.codeHash.None?)
      && forall s :: s in Committed(v.storage) && s !in wx && s !in wy ==> Committed(v.storage)[s] == 0
    else true
  }

  function OnceAt(c: map<Slot, Value>, ended: bool, wx: map<Slot, Value>, wy: map<Slot, Value>, s: Slot): Value {
    if s in wy then wy[s] else if s in wx then wx[s] else if ended || s !in c then 0 else c[s]
  }

  function TwiceAt(c: map<Slot, Value>, between: bool, ended: bool, wx: map<Slot, Value>, wy: map<Slot, Value>, s: Slot): Value {
    if s in wy then wy[s] else if ended then 0
    else if s in wx then wx[s] else if between || s !in c then 0 else c[s]
  }

  lemma OverlayOnce(committed: Option<map<Slot, Value>>, ended: bool, wx: map<Slot, Value>, wy: map<Slot, Value>)
    ensures var once := Overlay(committed, ended, wx + wy);
            && (once.None? <==> committed.None? && wx == map[] && wy == map[])
            && (once.Some? ==> once.value == map s | s in Committed(committed).Keys + wx.Keys + wy.Keys
                                               :: OnceAt(Committed(committed), ended, wx, wy, s))
  {}

  lemma OverlayTwice(committed: Option<map<Slot, Value>>, between: bool, ended: bool, wx: map<Slot, Value>, wy: map<Slot, Value>)
    ensures var twice := Overlay(Overlay(committed, between, wx), ended, wy);
            && (twice.None? <==> committed.None? && wx == map[] && wy == map[])
            && (twice.Some? ==> twice.value == map s | s in Committed(committed).Keys + wx.Keys + wy.Keys
                                                :: TwiceAt(Committed(committed), between, ended, wx, wy, s))
  {}

  lemma OverlayTwiceIff(committed: Option<map<Slot, Value>>, between: bool, ended: bool, wx: map<Slot, Value>, wy: map<Slot, Value>)
    ensures Overlay(Overlay(committed, between, wx), ended, wy) == Overlay(committed, ended, wx + wy) <==>
              var c := Committed(committed);
              if ended then forall s :: s in wx && s !in wy ==> wx[s] == 0
              else between ==> forall s :: s in c && s !in wx && s !in wy ==> c[s] == 0
  {
    OverlayOnce(committed, ended, wx, wy);
    OverlayTwice(committed, between, ended, wx, wy);
    PointwiseIff(Committed(committed), between, ended, wx, wy);
  }

  lemma PointwiseIff(c: map<Slot, Value>, between: bool, ended: bool, wx: map<Slot, Value>, wy: map<Slot, Value>)
    ensures (map s | s in c.Keys + wx.Keys + wy.Keys :: TwiceAt(c, between, ended, wx, wy, s))
            == (map s | s in c.Keys + wx.Keys + wy.Keys :: OnceAt(c, ended, wx, wy, s))
            <==> if ended then forall s :: s in wx && s !in wy ==> wx[s] == 0
                 else between ==> forall s :: s in c && s !in wx && s !in wy ==> c[s] == 0
  {
    var twice := map s | s in c.Keys + wx.Keys + wy.Keys :: TwiceAt(c, between, ended, wx, wy, s);
    var once := map s | s in c.Keys + wx.Keys + wy.Keys :: OnceAt(c, ended, wx, wy, s);
    if twice == once {
      forall s | s in c.Keys + wx.Keys + wy.Keys
        ensures TwiceAt(c, between, ended, wx, wy, s) == OnceAt(c, ended, wx, wy, s)
      {
        assert twice[s] == once[s];
      }
    }
  }

  /** One account listed in both lists: sequential and merged application agree if and only if the
      entries are compatible on it. */
  lemma MergeAccountIff(m: AccountChanges, x: AccountChanges, y: AccountChanges, v: View, parent: Option<Account>)
    requires IsMerge(m, x, y) && Follows(x, y) && Settled(x.storage) && Settled(y.storage)
    requires !OnlyReads(x) && !OnlyReads(y)
    ensures Effect(y, Effect(x, v, Success(parent)).value, Success(parent)) == Effect(m, v, Success(parent))
            <==> Compatible(x, y, v, parent)
  {
    var between := Fields(x, PriorOf(v, parent));
    EffectFields(x, v, parent);
    var v1 := Effect(x, v, Success(parent)).value;
    EffectFields(y, v1, parent);
    assert !OnlyReads(m);
    EffectFields(m, v, parent);
    MergedFields(m, x, y, PriorOf(v, parent));
    MergedWrites(m, x, y);
    LatestExists<Code>(y.code);
    var second, once := Fields(y, PriorOf(v1, parent)), Fields(y, Some(between));
    assert IsEmpty(second) == IsEmpty(once);
    OverlayTwiceIff(v.storage, IsEmpty(between), IsEmpty(once), Writes(x.storage), Writes(y.storage));
  }

  /** Entries with the same fields and the same slot writes have the same effect. */
  lemma SameEffect(x: AccountChanges, y: AccountChanges, v: View, parent: Option<Account>)
    requires x.balance == y.balance && x.nonce == y.nonce && x.code == y.code
    requires Writes(x.storage) == Writes(y.storage) && (OnlyReads(x) <==> OnlyReads(y))
    ensures Effect(x, v, Success(parent)) == Effect(y, v, Success(parent))
  {}

  /** An entry that only reads changes nothing, so merging with it is always sound. */
  lemma MergeWithReads(m: AccountChanges, x: AccountChanges, y: AccountChanges, v: View, parent: Option<Account>)
    requires IsMerge(m, x, y) && Follows(x, y) && Settled(x.storage) && Settled(y.storage)
    requires OnlyReads(x) || OnlyReads(y)
    ensures Effect(y, Effect(x, v, Success(parent)).value, Success(parent)) == Effect(m, v, Success(parent))
  {
    MergedWrites(m, x, y);
    if OnlyReads(x) {
      assert Writes(x.storage) + Writes(y.storage) == Writes(y.storage);
      SameEffect(m, y, v, parent);
    } else {
      assert Writes(x.storage) + Writes(y.storage) == Writes(x.storage);
      SameEffect(m, x, v, parent);
      EffectFields(x, v, parent);
    }
  }

  function EntryOf(list: seq<AccountChanges>, a: Address): Option<AccountChanges> {
    if list == [] then None else if list[0].address == a then Some(list[0]) else EntryOf(list[1..], a)
  }

  /** `m` lists every account of `x` and `y` once, merging the entries of accounts in both. */
  ghost predicate IsMergedList(m: seq<AccountChanges>, x: seq<AccountChanges>, y: seq<AccountChanges>) {
    UniqueAddresses(m) && forall a :: MergedEntry(EntryOf(m, a), EntryOf(x, a), EntryOf(y, a))
  }

  ghost predicate MergedEntry(m: Option<AccountChanges>, x: Option<AccountChanges>, y: Option<AccountChanges>) {
    if x.Some? && y.Some? then
      && m.Some? && IsMerge(m.value, x.value, y.value) && Follows(x.value, y.value)
      && Settled(x.value.storage) && Settled(y.value.storage)
    else m == if x.Some? then x else y
  }

  /** The parent account, as far as it can be read. */
  function ParentOf(provider: Provider, a: Address): Option<Account> {
    if provider(a).Success? then provider(a).value else None
  }

  /** An entry that does not fail never looks at a parent account that cannot be read. */
  lemma ReadableEffect(provider: Provider, st: PostState, c: AccountChanges)
    requires !Fails(provider, st, c)
    ensures Effect(c, At(st, c.address), provider(c.address)) == Effect(c, At(st, c.address), Success(ParentOf(provider, c.address)))
  {}

  function EffectOf(c: Option<AccountChanges>, v: View, parent: Option<Account>): View {
    if c.Some? then Effect(c.value, v, Success(parent)).value else v
  }

  lemma {:induction false} EntryOfUnique(list: seq<AccountChanges>, a: Address)
    ensures EntryOf(list, a).None? <==> forall k :: 0 <= k < |list| ==> list[k].address != a
    ensures EntryOf(list, a).Some? ==> exists k :: 0 <= k < |list| && list[k] == EntryOf(list, a).value && list[k].address == a
  {
    if list != [] && list[0].address != a {
      EntryOfUnique(list[1..], a);
      if EntryOf(list, a).Some? {
        var k :| 0 <= k < |list[1..]| && list[1..][k] == EntryOf(list, a).value;
        assert list[k + 1] == EntryOf(list, a).value;
      } else {
        assert forall k :: 0 < k < |list| ==> list[k] == list[1..][k - 1];
      }
    }
  }

  ghost predicate Readable(provider: Provider, st: PostState, list: seq<AccountChanges>) {
    forall k :: 0 <= k < |list| ==> !Fails(provider, st, list[k])
  }

  lemma ExtendView(provider: Provider, st: PostState, list: seq<AccountChanges>)
    requires UniqueAddresses(list)
    ensures Extend(provider, st, list).Success? <==> Readable(provider, st, list)
    ensures Extend(provider, st, list).Success? ==>
              forall a :: At(Extend(provider, st, list).value, a) == EffectOf(EntryOf(list, a), At(st, a), ParentOf(provider, a))
  {
    ExtendAt(provider, st, list);
    if Extend(provider, st, list).Success? {
      forall a ensures At(Extend(provider, st, list).value, a) == EffectOf(EntryOf(list, a), At(st, a), ParentOf(provider, a)) {
        EntryOfUnique(list, a);
        if EntryOf(list, a).Some? { ReadableEffect(provider, st, EntryOf(list, a).value); }
      }
    }
  }

  lemma SameViews(x: PostState, y: PostState)
    requires forall a :: At(x, a) == At(y, a)
    ensures x == y
  {
    forall a
      ensures a in x.accounts <==> a in y.accounts
      ensures a in x.accounts ==> x.accounts[a] == y.accounts[a]
      ensures a in x.storages <==> a in y.storages
      ensures a in x.storages ==> x.storages[a] == y.storages[a]
    {
      assert At(x, a) == At(y, a);
    }
    assert x.accounts == y.accounts && x.storages == y.storages;
  }

  /** Whether account `a` poses no obstacle to merging the lists. */
  ghost predicate MergeableAt(provider: Provider, st: PostState, x: seq<AccountChanges>, y: seq<AccountChanges>, a: Address) {
    var cx, cy := EntryOf(x, a), EntryOf(y, a);
    cx.Some? && cy.Some? && !OnlyReads(cx.value) && !OnlyReads(cy.value) ==>
      Compatible(cx.value, cy.value, At(st, a), ParentOf(provider, a))
  }

  lemma MergeViewIff(provider: Provider, st: PostState, x: seq<AccountChanges>, y: seq<AccountChanges>, m: seq<AccountChanges>, a: Address)
    requires MergedEntry(EntryOf(m, a), EntryOf(x, a), EntryOf(y, a))
    ensures var p := ParentOf(provider, a);
            EffectOf(EntryOf(y, a), EffectOf(EntryOf(x, a), At(st, a), p), p) == EffectOf(EntryOf(m, a), At(st, a), p)
            <==> MergeableAt(provider, st, x, y, a)
  {
    var cx, cy, cm, p := EntryOf(x, a), EntryOf(y, a), EntryOf(m, a), ParentOf(provider, a);
    if cx.Some? && cy.Some? {
      if OnlyReads(cx.value) || OnlyReads(cy.value) {
        MergeWithReads(cm.value, cx.value, cy.value, At(st, a), p);
      } else {
        EffectFields(cx.value, At(st, a), p);
        var v1 := Effect(cx.value, At(st, a), Success(p)).value;
        EffectFields(cy.value, v1, p);
        assert !OnlyReads(cm.value);
        EffectFields(cm.value, At(st, a), p);
        MergeAccountIff(cm.value, cx.value, cy.value, At(st, a), p);
      }
    }
  }

  /** Applying one list and then the other. */
  function Sequential(provider: Provider, st: PostState, x: seq<AccountChanges>, y: seq<AccountChanges>): Result<PostState, string> {
    match Extend(provider, st, x)
    case Failure(e) => Failure(e)
    case Success(st1) => Extend(provider, st1, y)
  }

  /** A merged entry needs the parent account only if both parts do. */
  lemma MergedIsReadable(provider: Provider, st: PostState, x: seq<AccountChanges>, y: seq<AccountChanges>, m: seq<AccountChanges>)
    requires UniqueAddresses(x) && UniqueAddresses(y) && IsMergedList(m, x, y)
    requires Sequential(provider, st, x, y).Success?
    ensures Readable(provider, st, m)
  {
    ExtendView(provider, st, x);
    var st1 := Extend(provider, st, x).value;
    ExtendView(provider, st1, y);
    forall k | 0 <= k < |m| ensures !Fails(provider, st, m[k]) {
      var a := m[k].address;
      EntryOfUnique(m, a);
      EntryOfUnique(x, a);
      EntryOfUnique(y, a);
      assert EntryOf(m, a) == Some(m[k]);
      assert MergedEntry(EntryOf(m, a), EntryOf(x, a), EntryOf(y, a));
      assert At(st1, a) == EffectOf(EntryOf(x, a), At(st, a), ParentOf(provider, a));
    }
  }

  /** Applying list `x` and then list `y`, whose indices lie above, equals applying a merged list once
      if and only if every account changed by both is compatible. The merged list reads no account the two
      lists would not have read, so it fails only if they do. */
  lemma SequentialEqualsMergedIff(provider: Provider, st: PostState, x: seq<AccountChanges>, y: seq<AccountChanges>, m: seq<AccountChanges>)
    requires UniqueAddresses(x) && UniqueAddresses(y) && IsMergedList(m, x, y)
    ensures Sequential(provider, st, x, y).Success? ==>
              && Extend(provider, st, m).Success?
              && (Sequential(provider, st, x, y) == Extend(provider, st, m) <==> forall a :: MergeableAt(provider, st, x, y, a))
  {
    if Sequential(provider, st, x, y).Success? {
      MergedIsReadable(provider, st, x, y, m);
      ExtendView(provider, st, x);
      var st1 := Extend(provider, st, x).value;
      ExtendView(provider, st1, y);
      ExtendView(provider, st, m);
      var st2, once := Extend(provider, st1, y).value, Extend(provider, st, m).value;
      forall a ensures At(st2, a) == At(once, a) <==> MergeableAt(provider, st, x, y, a) {
        assert At(st1, a) == EffectOf(EntryOf(x, a), At(st, a), ParentOf(provider, a));
        assert At(st2, a) == EffectOf(EntryOf(y, a), At(st1, a), ParentOf(provider, a));
        assert At(once, a) == EffectOf(EntryOf(m, a), At(st, a), ParentOf(provider, a));
        assert MergedEntry(EntryOf(m, a), EntryOf(x, a), EntryOf(y, a));
        MergeViewIff(provider, st, x, y, m, a);
      }
      if forall a :: MergeableAt(provider, st, x, y, a) {
        SameViews(st2, once);
      }
      if st2 == once {
        forall a ensures MergeableAt(provider, st, x, y, a) {
          assert At(st2, a) == At(once, a);
        }
      }
    }
  }

  lemma NoEmptyEndingIsCompatible(x: AccountChanges, y: AccountChanges, v: View, parent: Option<Account>)
    requires !IsEmpty(Fields(x, PriorOf(v, parent)))
    requires !IsEmpty(Fields(y, Some(Fields(x, PriorOf(v, parent)))))
    ensures Compatible(x, y, v, parent)
  {}

  /** In particular the lists may be merged when no account changed by both ends either list empty. */
  lemma NoEmptyEndingMerges(provider: Provider, st: PostState, x: seq<AccountChanges>, y: seq<AccountChanges>, m: seq<AccountChanges>)
    requires UniqueAddresses(x) && UniqueAddresses(y) && IsMergedList(m, x, y)
    requires Sequential(provider, st, x, y).Success?
    requires forall a :: EntryOf(x, a).Some? && EntryOf(y, a).Some? ==>
               var after := Fields(EntryOf(x, a).value, PriorOf(At(st, a), ParentOf(provider, a)));
               !IsEmpty(after) && !IsEmpty(Fields(EntryOf(y, a).value, Some(after)))
    ensures Sequential(provider, st, x, y) == Extend(provider, st, m)
  {
    forall a ensures MergeableAt(provider, st, x, y, a) {
      if EntryOf(x, a).Some? && EntryOf(y, a).Some? {
        NoEmptyEndingIsCompatible(EntryOf(x, a).value, EntryOf(y, a).value, At(st, a), ParentOf(provider, a));
      }
    }
    SequentialEqualsMergedIff(provider, st, x, y, m);
  }

  /** An entry that writes a slot, one that then empties the account, and the two merged. */
  const WRITES_SLOT := AccountChanges(1, [SlotChanges(0, [Change(1, 7)])], [], [Change(1, 5)], [Change(1, 0)], [Change(1, [])])
  const EMPTIES := AccountChanges(1, [], [], [Change(2, 0)], [], [])
  const BOTH := WRITES_SLOT.(balance := WRITES_SLOT.balance + EMPTIES.balance)

  lemma ExampleMerges()
    ensures IsMerge(BOTH, WRITES_SLOT, EMPTIES) && Follows(WRITES_SLOT, EMPTIES)
    ensures Settled(WRITES_SLOT.storage) && Settled(EMPTIES.storage)
  {
    forall s ensures SettledAt(WRITES_SLOT.storage, s) && SettledAt(EMPTIES.storage, s)
             ensures ChangesOf(EMPTIES.storage, s) == []
             ensures ChangesOf(BOTH.storage, s) == ChangesOf(WRITES_SLOT.storage, s) + ChangesOf(EMPTIES.storage, s)
    {
      UniqueSlotsSettle(WRITES_SLOT.storage, s);
    }
    assert BOTH.nonce == WRITES_SLOT.nonce + EMPTIES.nonce && BOTH.code == WRITES_SLOT.code + EMPTIES.code;
  }

  lemma ExampleIncompatible(parent: Option<Account>)
    ensures !Compatible(WRITES_SLOT, EMPTIES, View(None, None), parent)
  {
    LatestOne<nat>(WRITES_SLOT.nonce[0]);
    LatestOne<Code>(WRITES_SLOT.code[0]);
    LatestOne<nat>(EMPTIES.balance[0]);
    LatestOne<Value>(WRITES_SLOT.storage[0].changes[0]);
    assert WRITES_SLOT.storage[..0] == [];
    assert Writes(WRITES_SLOT.storage)[0] == 7 && 0 !in Writes(EMPTIES.storage);
  }

  /** The failing side: in a row the slot ends at zero, merged it keeps its value. */
  lemma EmptyEndingDiffers(provider: Provider)
    ensures IsMergedList([BOTH], [WRITES_SLOT], [EMPTIES])
    ensures var st := PostState(map[], map[]);
            && Sequential(provider, st, [WRITES_SLOT], [EMPTIES]).Success?
            && Sequential(provider, st, [WRITES_SLOT], [EMPTIES]) != Extend(provider, st, [BOTH])
  {
    var st, x, y, m := PostState(map[], map[]), [WRITES_SLOT], [EMPTIES], [BOTH];
    ExampleMerges();
    assert x[1..] == [] && y[1..] == [] && m[1..] == [];
    forall a ensures MergedEntry(EntryOf(m, a), EntryOf(x, a), EntryOf(y, a)) {
      assert a != 1 ==> EntryOf(m, a) == EntryOf(x, a) == EntryOf(y, a) == None;
    }
    ExampleReadable(provider);
    ExampleIncompatible(ParentOf(provider, 1));
    assert At(st, 1) == View(None, None);
    assert EntryOf(x, 1) == Some(WRITES_SLOT) && EntryOf(y, 1) == Some(EMPTIES);
    assert !MergeableAt(provider, st, x, y, 1);
    SequentialEqualsMergedIff(provider, st, x, y, m);
  }

  /** No account has to be read: the first entry gives every field, and the second finds it committed. */
  lemma ExampleReadable(provider: Provider)
    ensures Sequential(provider, PostState(map[], map[]), [WRITES_SLOT], [EMPTIES]).Success?
  {
    var st := PostState(map[], map[]);
    ExtendView(provider, st, [WRITES_SLOT]);
    var st1 := Extend(provider, st, [WRITES_SLOT]).value;
    assert At(st1, 1) == EffectOf(EntryOf([WRITES_SLOT], 1), At(st, 1), ParentOf(provider, 1));
    assert 1 in st1.accounts;
    ExtendView(provider, st1, [EMPTIES]);
  }

  // ---------------------------------------------------------------------------------------------
  // The loops
  // ---------------------------------------------------------------------------------------------

  method ZeroSlots(committed: map<Slot, Value>) returns (zeroed: map<Slot, Value>)
    ensures zeroed == Zeroed(committed)
  {
    zeroed := committed;
    var todo := committed.Keys;
    while todo != {}
      invariant todo <= committed.Keys && zeroed.Keys == committed.Keys
      invariant forall s :: s in zeroed ==> zeroed[s] == if s in todo then committed[s] else 0
      decreases |todo|
    {
      var s :| s in todo;
      zeroed := zeroed[s := 0];
      todo := todo - {s};
    }
  }

  method MaxByIndex<T>(cs: seq<Change<T>>) returns (best: Option<Change<T>>)
    ensures best == Latest(cs)
  {
    best := None;
    for i := 0 to |cs|
      invariant best == Latest(cs[..i])
    {
      assert cs[..i + 1][..i] == cs[..i];
      if best.None? || best.value.index <= cs[i].index {
        best := Some(cs[i]);
      }
    }
    assert cs[..|cs|] == cs;
  }

  method StoragePostStates(storage: seq<SlotChanges>) returns (writes: map<Slot, Value>)
    ensures writes == Writes(storage)
  {
    writes := map[];
    for i := 0 to |storage|
      invariant writes == Writes(storage[..i])
    {
      assert storage[..i + 1][..i] == storage[..i];
      var latest := MaxByIndex<Value>(storage[i].changes);
      if latest.Some? {
        writes := writes[storage[i].slot := latest.value.post];
      }
    }
    assert storage[..|storage|] == storage;
  }

  method AccountPostState(c: AccountChanges, pre: Option<Account>) returns (account: Option<Account>)
    ensures account == if OnlyReads(c) then None else Some(Fields(c, pre))
  {
    if c.storage == [] && c.balance == [] && c.nonce == [] && c.code == [] { return None; }
    var balance := MaxByIndex<nat>(c.balance);
    var nonce := MaxByIndex<nat>(c.nonce);
    var code := MaxByIndex<Code>(c.code);
    var a := if pre.Some? then pre.value else Account(0, 0, None);
    if balance.Some? { a := a.(balance := balance.value.post); }
    if nonce.Some? { a := a.(nonce := nonce.value.post); }
    if code.Some? { a := a.(codeHash := Some(Keccak(code.value.post))); }
    account := Some(a);
  }

  method IntoHashedPostState(provider: Provider, committed: PostState, list: seq<AccountChanges>) returns (r: Result<PostState, string>)
    ensures r == Extend(provider, committed, list)
  {
    var st := committed;
    assert list[0..] == list;
    for i := 0 to |list|
      invariant Extend(provider, st, list[i..]) == Extend(provider, committed, list)
    {
      assert list[i..][1..] == list[i + 1..];
      var next := ApplyChanges(provider, st, list[i]);
      if next.Failure? { return Failure(next.error); }
      st := next.value;
    }
    r := Success(st);
  }

  /** Zeroes the committed slots of an account that ends empty, then lays the writes over them. */
  method OverlaySlots(storages: map<Address, map<Slot, Value>>, a: Address, ended: bool, storage: seq<SlotChanges>)
    returns (after: map<Address, map<Slot, Value>>)
    ensures var committed := if a in storages then Some(storages[a]) else None;
            var slots := Overlay(committed, ended, Writes(storage));
            after == if slots.Some? then storages[a := slots.value] else storages
  {
    after := storages;
    if ended && a in after {
      var zeroed := ZeroSlots(after[a]);
      after := after[a := zeroed];
    }
    var writes := StoragePostStates(storage);
    if writes != map[] {
      var slots := if a in after then after[a] else map[];
      after := after[a := slots + writes];
    }
  }

  method ApplyChanges(provider: Provider, before: PostState, c: AccountChanges) returns (r: Result<PostState, string>)
    ensures var effect := Effect(c, At(before, c.address), provider(c.address));
            r == if effect.Failure? then Failure(effect.error) else Success(With(before, c.address, effect.value))
  {
    var pre: Option<Account> := None;
    if c.balance == [] || c.nonce == [] || c.code == [] {
      if c.address in before.accounts {
        pre := before.accounts[c.address];
      } else {
        var parent := provider(c.address);
        if parent.Failure? { return Failure(parent.error); }
        pre := parent.value;
      }
    }
    var account := AccountPostState(c, pre);
    if account.None? {
      SameViews(With(before, c.address, At(before, c.address)), before);
      return Success(before);
    }
    var ended := IsEmpty(account.value);
    var accounts := before.accounts[c.address := if ended then None else account];
    var storages := OverlaySlots(before.storages, c.address, ended, c.storage);
    r := Success(PostState(accounts, storages));
  }
}
