/** Undo records of crates/evm/src/utils.rs: `flatten_reverts` merges the reverts of all transitions of
    a block into one transition. */
module Reverts {
  import opened Wrappers

  type Addr = nat
  type Slot = nat
  type Value = nat

  datatype Status =
    | LoadedNotExisting | Loaded | LoadedEmpty | InMemoryChange | Changed
    | Destroyed | DestroyedChanged | DestroyedAgain

  datatype AccountInfo = AccountInfo(balance: nat, nonce: nat, code: nat)

  datatype InfoRevert = DoNothing | DeleteIt | RevertTo(info: AccountInfo)

  datatype SlotRevert = ToValue(value: Value) | ToDestroyed

  datatype AccountRevert = AccountRevert(account: InfoRevert, storage: map<Slot, SlotRevert>, previous: Status, wipe: bool)

  type Transition = seq<(Addr, AccountRevert)>

  // ---------------------------------------------------------------------------------------------
  // Flattening
  // ---------------------------------------------------------------------------------------------

  /** Earliest status, earliest effective account revert, earliest revert per slot, wipe if either wipes. */
  function Merge(first: AccountRevert, later: AccountRevert): AccountRevert {
    AccountRevert(if first.account.DoNothing? then later.account else first.account,
                  later.storage + first.storage,
                  first.previous,
                  first.wipe || later.wipe)
  }

  function MergeAll(history: seq<AccountRevert>): AccountRevert
    requires history != []
  {
    if |history| == 1 then history[0] else Merge(history[0], MergeAll(history[1..]))
  }

  function Absorb(m: map<Addr, AccountRevert>, entry: (Addr, AccountRevert)): map<Addr, AccountRevert> {
    m[entry.0 := if entry.0 in m then Merge(m[entry.0], entry.1) else entry.1]
  }

  function Entries(reverts: seq<Transition>): Transition {
    if reverts == [] then [] else reverts[0] + Entries(reverts[1..])
  }

  function Fold(m: map<Addr, AccountRevert>, entries: Transition): map<Addr, AccountRevert>
    decreases |entries|
  {
    if entries == [] then m else Fold(Absorb(m, entries[0]), entries[1..])
  }

  function Flatten(reverts: seq<Transition>): map<Addr, AccountRevert> {
    Fold(map[], Entries(reverts))
  }

  /** A transition that lists a map once per address, in any order. */
  ghost predicate Lists(t: Transition, m: map<Addr, AccountRevert>) {
    && (forall i, j :: 0 <= i < j < |t| ==> t[i].0 != t[j].0)
    && (forall i :: 0 <= i < |t| ==> t[i].0 in m && m[t[i].0] == t[i].1)
    && (forall a :: a in m ==> exists i :: 0 <= i < |t| && t[i].0 == a)
  }

  // ---------------------------------------------------------------------------------------------
  // One account at a time
  // ---------------------------------------------------------------------------------------------

  /** All reverts recorded for an account, earliest first. */
  function History(entries: Transition, a: Addr): seq<AccountRevert> {
    if entries == [] then []
    else (if entries[0].0 == a then [entries[0].1] else []) + History(entries[1..], a)
  }

  lemma MergeAssociative(a: AccountRevert, b: AccountRevert, c: AccountRevert)
    ensures Merge(Merge(a, b), c) == Merge(a, Merge(b, c))
  {}

  lemma {:induction false} MergeAllAppend(h: seq<AccountRevert>, g: seq<AccountRevert>)
    requires h != [] && g != []
    ensures MergeAll(h + g) == Merge(MergeAll(h), MergeAll(g))
  {
    assert (h + g)[1..] == h[1..] + g;
    if |h| > 1 {
      MergeAllAppend(h[1..], g);
      MergeAssociative(h[0], MergeAll(h[1..]), MergeAll(g));
    }
  }

  lemma {:induction false} HistoryAppend(s: Transition, t: Transition, a: Addr)
    ensures History(s + t, a) == History(s, a) + History(t, a)
  {
    if s == [] {
      assert s + t == t;
    } else {
      var head := if s[0].0 == a then [s[0].1] else [];
      assert (s + t)[0] == s[0] && (s + t)[1..] == s[1..] + t;
      HistoryAppend(s[1..], t, a);
      assert head + (History(s[1..], a) + History(t, a)) == (head + History(s[1..], a)) + History(t, a);
    }
  }

  /** Folding accumulates exactly the merged history of each account. */
  lemma {:induction false} FoldIsMergedHistory(m: map<Addr, AccountRevert>, entries: Transition, a: Addr)
    ensures var h := (if a in m then [m[a]] else []) + History(entries, a);
            if h == [] then a !in Fold(m, entries) else a in Fold(m, entries) && Fold(m, entries)[a] == MergeAll(h)
    decreases |entries|
  {
    var h := (if a in m then [m[a]] else []) + History(entries, a);
    if entries != [] {
      var m' := Absorb(m, entries[0]);
      FoldIsMergedHistory(m', entries[1..], a);
      var h' := (if a in m' then [m'[a]] else []) + History(entries[1..], a);
      if entries[0].0 == a && a in m {
        var rest := History(entries[1..], a);
        assert h == [m[a], entries[0].1] + rest && h' == [Merge(m[a], entries[0].1)] + rest;
        assert MergeAll([m[a], entries[0].1]) == Merge(m[a], entries[0].1) by {
          assert [m[a], entries[0].1][1..] == [entries[0].1];
        }
        if rest != [] {
          MergeAllAppend([m[a], entries[0].1], rest);
          MergeAllAppend([Merge(m[a], entries[0].1)], rest);
        } else {
          assert h == [m[a], entries[0].1] && h' == [Merge(m[a], entries[0].1)];
        }
      } else {
        assert h == h';
      }
    }
  }

  lemma FlattenAt(entries: Transition, a: Addr)
    ensures a in Fold(map[], entries) <==> History(entries, a) != []
    ensures a in Fold(map[], entries) ==> Fold(map[], entries)[a] == MergeAll(History(entries, a))
  {
    FoldIsMergedHistory(map[], entries, a);
    assert [] + History(entries, a) == History(entries, a);
  }

  lemma {:induction false} HistoryOfUnlisted(t: Transition, a: Addr)
    requires forall i :: 0 <= i < |t| ==> t[i].0 != a
    ensures History(t, a) == []
  {
    if t != [] {
      HistoryOfUnlisted(t[1..], a);
    }
  }

  lemma {:induction false} HistoryOfListed(t: Transition, i: nat)
    requires i < |t| && forall k, l :: 0 <= k < l < |t| ==> t[k].0 != t[l].0
    ensures History(t, t[i].0) == [t[i].1]
  {
    if i == 0 {
      HistoryOfUnlisted(t[1..], t[0].0);
    } else {
      assert t[1..][i - 1] == t[i];
      HistoryOfListed(t[1..], i - 1);
    }
  }

  lemma HistoryOfListing(t: Transition, m: map<Addr, AccountRevert>, a: Addr)
    requires Lists(t, m)
    ensures History(t, a) == if a in m then [m[a]] else []
  {
    if a in m {
      var i :| 0 <= i < |t| && t[i].0 == a;
      HistoryOfListed(t, i);
    } else {
      HistoryOfUnlisted(t, a);
    }
  }

  lemma {:induction false} EntriesAppend(r: seq<Transition>, s: seq<Transition>)
    ensures Entries(r + s) == Entries(r) + Entries(s)
  {
    if r == [] {
      assert r + s == s;
    } else {
      assert (r + s)[1..] == r[1..] + s;
      EntriesAppend(r[1..], s);
    }
  }

  lemma EntriesOne(t: Transition)
    ensures Entries([t]) == t
  {}

  /** A flattened prefix may stand for the transitions it came from. */
  lemma FlattenPrefixOnce(r: seq<Transition>, s: seq<Transition>, tr: Transition)
    requires Lists(tr, Flatten(r))
    ensures Flatten([tr] + s) == Flatten(r + s)
  {
    EntriesAppend(r, s);
    EntriesAppend([tr], s);
    EntriesOne(tr);
    forall a
      ensures a in Flatten([tr] + s) <==> a in Flatten(r + s)
      ensures a in Flatten(r + s) ==> Flatten([tr] + s)[a] == Flatten(r + s)[a]
    {
      FlattenedPrefixAgrees(Entries(r), Entries(s), tr, a);
    }
  }

  /** Flattening is compositional: two runs of transitions may be flattened separately first, listed
      in any order, and flattening the two results gives the same undo record. */
  lemma FlattenComposes(r: seq<Transition>, s: seq<Transition>, tr: Transition, ts: Transition)
    requires Lists(tr, Flatten(r)) && Lists(ts, Flatten(s))
    ensures Flatten([tr] + [ts]) == Flatten(r + s)
  {
    FlattenPrefixOnce(r, s, tr);
    EntriesAppend([tr], s);
    EntriesAppend([tr], [ts]);
    EntriesOne(tr);
    EntriesOne(ts);
    forall a
      ensures a in Flatten([tr] + [ts]) <==> a in Flatten([tr] + s)
      ensures a in Flatten([tr] + s) ==> Flatten([tr] + [ts])[a] == Flatten([tr] + s)[a]
    {
      FlattenedSuffixAgrees(tr, Entries(s), ts, a);
    }
  }

  /** So may its beginning. */
  lemma MergePrefixFirst(hr: seq<AccountRevert>, hs: seq<AccountRevert>)
    requires hr != []
    ensures MergeAll(hr + hs) == MergeAll([MergeAll(hr)] + hs)
  {
    if hs == [] {
      assert hr + hs == hr && [MergeAll(hr)] + hs == [MergeAll(hr)];
    } else {
      MergeAllAppend(hr, hs);
      MergeAllAppend([MergeAll(hr)], hs);
    }
  }

  lemma FlattenedPrefixAgrees(r: Transition, s: Transition, tr: Transition, a: Addr)
    requires Lists(tr, Fold(map[], r))
    ensures a in Fold(map[], tr + s) <==> a in Fold(map[], r + s)
    ensures a in Fold(map[], r + s) ==> Fold(map[], tr + s)[a] == Fold(map[], r + s)[a]
  {
    FlattenAt(r + s, a);
    FlattenAt(tr + s, a);
    HistoryAppend(r, s, a);
    HistoryAppend(tr, s, a);
    ListedHistory(r, tr, a);
    if History(r, a) != [] { MergePrefixFirst(History(r, a), History(s, a)); }
  }

  /** The end of a history may be merged first. */
  lemma MergeSuffixFirst(hp: seq<AccountRevert>, hs: seq<AccountRevert>)
    requires hs != []
    ensures MergeAll(hp + hs) == MergeAll(hp + [MergeAll(hs)])
  {
    if hp == [] {
      assert hp + hs == hs && hp + [MergeAll(hs)] == [MergeAll(hs)];
    } else {
      MergeAllAppend(hp, hs);
      MergeAllAppend(hp, [MergeAll(hs)]);
    }
  }

  lemma FlattenedSuffixAgrees(p: Transition, s: Transition, ts: Transition, a: Addr)
    requires Lists(ts, Fold(map[], s))
    ensures a in Fold(map[], p + ts) <==> a in Fold(map[], p + s)
    ensures a in Fold(map[], p + s) ==> Fold(map[], p + ts)[a] == Fold(map[], p + s)[a]
  {
    FlattenAt(p + s, a);
    FlattenAt(p + ts, a);
    HistoryAppend(p, s, a);
    HistoryAppend(p, ts, a);
    ListedHistory(s, ts, a);
    if History(s, a) != [] { MergeSuffixFirst(History(p, a), History(s, a)); }
  }

  /** In a flattened listing an account's history is the merge of its history. */
  lemma ListedHistory(s: Transition, ts: Transition, a: Addr)
    requires Lists(ts, Fold(map[], s))
    ensures History(ts, a) == if History(s, a) == [] then [] else [MergeAll(History(s, a))]
  {
    FlattenAt(s, a);
    HistoryOfListing(ts, Fold(map[], s), a);
  }

  /** What is flattened after flashblock `k`: the committed record, in whatever order it was listed,
      followed by the flashblock's own transitions. */
  function Extended(blocks: seq<seq<Transition>>, listings: seq<Transition>, k: nat): seq<Transition>
    requires k < |blocks| == |listings|
  {
    if k == 0 then blocks[0] else [listings[k - 1]] + blocks[k]
  }

  ghost predicate FlattenedAt(blocks: seq<seq<Transition>>, listings: seq<Transition>, k: nat)
    requires k < |blocks| == |listings|
  {
    Lists(listings[k], Flatten(Extended(blocks, listings, k)))
  }

  ghost predicate FlattenedEachTime(blocks: seq<seq<Transition>>, listings: seq<Transition>)
    requires |listings| == |blocks|
  {
    forall k :: 0 <= k < |blocks| ==> FlattenedAt(blocks, listings, k)
  }

  function AllTransitions(blocks: seq<seq<Transition>>): seq<Transition> {
    if blocks == [] then [] else AllTransitions(blocks[..|blocks| - 1]) + blocks[|blocks| - 1]
  }

  /** Flattening onto a listing that stands for `before` gives a listing of everything. */
  lemma FlattenOneMore(before: seq<Transition>, listing: Transition, next: seq<Transition>, after: Transition)
    requires Lists(listing, Flatten(before)) && Lists(after, Flatten([listing] + next))
    ensures Lists(after, Flatten(before + next))
  {
    FlattenPrefixOnce(before, next, listing);
  }

  lemma FlattenedPrefixEachTime(blocks: seq<seq<Transition>>, listings: seq<Transition>, n: nat)
    requires |listings| == |blocks| && n <= |blocks| && FlattenedEachTime(blocks, listings)
    ensures FlattenedEachTime(blocks[..n], listings[..n])
  {
    forall k | 0 <= k < n ensures FlattenedAt(blocks[..n], listings[..n], k) {
      assert FlattenedAt(blocks, listings, k);
      assert Extended(blocks[..n], listings[..n], k) == Extended(blocks, listings, k);
    }
  }

  /** For any number of flashblocks, flattening after each of them gives the same undo record as
      flattening all transitions once at the end. */
  lemma {:induction false} FlattenEachTimeEqualsOnce(blocks: seq<seq<Transition>>, listings: seq<Transition>)
    requires |listings| == |blocks| > 0 && FlattenedEachTime(blocks, listings)
    ensures Lists(listings[|blocks| - 1], Flatten(AllTransitions(blocks)))
  {
    var n := |blocks| - 1;
    var before := AllTransitions(blocks[..n]);
    assert FlattenedAt(blocks, listings, n);
    if n == 0 {
      assert before + blocks[0] == Extended(blocks, listings, 0);
    } else {
      FlattenedPrefixEachTime(blocks, listings, n);
      FlattenEachTimeEqualsOnce(blocks[..n], listings[..n]);
      assert listings[..n][n - 1] == listings[n - 1];
      FlattenOneMore(before, listings[n - 1], blocks[n], listings[n]);
    }
  }

  // ---------------------------------------------------------------------------------------------
  // When two continuations flatten to the same record
  // ---------------------------------------------------------------------------------------------

  /** What a later history adds to an account that already has record `first`: its info revert only if the
      record has none, the slots the record does not list, and a wipe only if the record does not wipe. */
  datatype Addition = Addition(account: InfoRevert, storage: map<Slot, SlotRevert>, wipe: bool)

  function Added(first: AccountRevert, h: seq<AccountRevert>): Addition {
    if h == [] then Addition(DoNothing, map[], false)
    else
      var later := MergeAll(h);
      Addition(if first.account.DoNothing? then later.account else DoNothing,
               later.storage - first.storage.Keys,
               !first.wipe && later.wipe)
  }

  function Continued(first: Option<AccountRevert>, h: seq<AccountRevert>): Option<AccountRevert> {
    if h == [] then first
    else if first.None? then Some(MergeAll(h))
    else Some(Merge(first.value, MergeAll(h)))
  }

  lemma AddedDecides(first: AccountRevert, h: seq<AccountRevert>)
    ensures var r, a := Continued(Some(first), h).value, Added(first, h);
            && r.account == (if first.account.DoNothing? then a.account else first.account)
            && r.storage == a.storage + first.storage && a.storage.Keys !! first.storage.Keys
            && r.previous == first.previous && r.wipe == (first.wipe || a.wipe)
            && (first.account.DoNothing? || a.account.DoNothing?) && !(first.wipe && a.wipe)
  {}

  lemma ContinueAlikeIff(first: AccountRevert, g: seq<AccountRevert>, h: seq<AccountRevert>)
    ensures Continued(Some(first), g) == Continued(Some(first), h) <==> Added(first, g) == Added(first, h)
  {
    AddedDecides(first, g);
    AddedDecides(first, h);
    var a, b := Added(first, g), Added(first, h);
    if Continued(Some(first), g) == Continued(Some(first), h) {
      var r := Continued(Some(first), g).value;
      assert a.storage == r.storage - first.storage.Keys;
      assert b.storage == r.storage - first.storage.Keys;
    }
  }

  lemma FlattenContinues(r: seq<Transition>, x: seq<Transition>, a: Addr)
    ensures Find(Flatten(r + x), a) == Continued(Find(Flatten(r), a), History(Entries(x), a))
  {
    var hr, hx := History(Entries(r), a), History(Entries(x), a);
    EntriesAppend(r, x);
    HistoryAppend(Entries(r), Entries(x), a);
    FlattenAt(Entries(r), a);
    FlattenAt(Entries(r + x), a);
    if hx == [] {
      assert hr + hx == hr;
    } else if hr == [] {
      assert hr + hx == hx;
    } else {
      MergeAllAppend(hr, hx);
    }
  }

  function Find(m: map<Addr, AccountRevert>, a: Addr): Option<AccountRevert> {
    if a in m then Some(m[a]) else None
  }

  /** One account: the two continuations add the same to its record, or start the same one. */
  ghost predicate AlikeAt(r: seq<Transition>, x: seq<Transition>, y: seq<Transition>, a: Addr) {
    var first, g, h := Find(Flatten(r), a), History(Entries(x), a), History(Entries(y), a);
    if first.Some? then Added(first.value, g) == Added(first.value, h) else Continued(None, g) == Continued(None, h)
  }

  ghost predicate Alike(r: seq<Transition>, x: seq<Transition>, y: seq<Transition>) {
    forall a :: AlikeAt(r, x, y, a)
  }

  /** Two ways of recording what follows `r`, such as by fragments and serially, flatten to equal records if
      and only if for every account they add the same. In particular a recorded status never matters, nor does
      a slot that `r` lists already. */
  lemma FlattenAlikeIff(r: seq<Transition>, x: seq<Transition>, y: seq<Transition>)
    ensures Flatten(r + x) == Flatten(r + y) <==> Alike(r, x, y)
  {
    var fx, fy := Flatten(r + x), Flatten(r + y);
    forall a ensures Find(fx, a) == Find(fy, a) <==> AlikeAt(r, x, y, a) {
      FlattenContinues(r, x, a);
      FlattenContinues(r, y, a);
      if a in Flatten(r) {
        ContinueAlikeIff(Flatten(r)[a], History(Entries(x), a), History(Entries(y), a));
      }
    }
    if fx == fy {
      forall a ensures AlikeAt(r, x, y, a) { assert Find(fx, a) == Find(fy, a); }
    }
    if Alike(r, x, y) {
      forall a ensures a in fx <==> a in fy ensures a in fx ==> fx[a] == fy[a] {
        assert AlikeAt(r, x, y, a);
        assert Find(fx, a) == Find(fy, a);
      }
    }
  }

  // ---------------------------------------------------------------------------------------------
  // Undoing
  // ---------------------------------------------------------------------------------------------

  function UndoInfo(r: AccountRevert, info: Option<AccountInfo>): Option<AccountInfo> {
    match r.account
    case DoNothing => info
    case DeleteIt => None
    case RevertTo(i) => Some(i)
  }

  /** A destroyed slot goes back to the database value when the storage was wiped, else to zero. */
  function Target(to: SlotRevert, wipe: bool, stored: Value): Value {
    match to
    case ToValue(v) => v
    case ToDestroyed => if wipe then stored else 0
  }

  /** The value of slot `s` after undoing `r`, when it was `v` before and the database holds `stored`:
      recorded slots go to their target, a wipe brings back the database for all others. */
  function UndoSlot(r: AccountRevert, stored: Value, s: Slot, v: Value): Value {
    if s in r.storage then Target(r.storage[s], r.wipe, stored) else if r.wipe then stored else v
  }

  /** Undoing a history from the last transition to the first. */
  function UndoInfoAll(h: seq<AccountRevert>, info: Option<AccountInfo>): Option<AccountInfo> {
    if h == [] then info else UndoInfo(h[0], UndoInfoAll(h[1..], info))
  }

  function UndoStatusAll(h: seq<AccountRevert>, status: Status): Status {
    if h == [] then status else h[0].previous
  }

  function UndoSlotAll(h: seq<AccountRevert>, stored: Value, s: Slot, v: Value): Value {
    if h == [] then v else UndoSlot(h[0], stored, s, UndoSlotAll(h[1..], stored, s, v))
  }

  lemma {:induction false} UndoAllAppend(g: seq<AccountRevert>, h: seq<AccountRevert>, info: Option<AccountInfo>, stored: Value, s: Slot, v: Value)
    ensures UndoInfoAll(g + h, info) == UndoInfoAll(g, UndoInfoAll(h, info))
    ensures UndoSlotAll(g + h, stored, s, v) == UndoSlotAll(g, stored, s, UndoSlotAll(h, stored, s, v))
  {
    if g == [] {
      assert g + h == h;
    } else {
      assert (g + h)[1..] == g[1..] + h;
      UndoAllAppend(g[1..], h, info, stored, s, v);
    }
  }

  /** Account info, status and the wipe flag survive flattening for every history. */
  lemma {:induction false} FlattenedUndoInfo(h: seq<AccountRevert>, info: Option<AccountInfo>, status: Status)
    requires h != []
    ensures UndoInfo(MergeAll(h), info) == UndoInfoAll(h, info)
    ensures MergeAll(h).previous == UndoStatusAll(h, status)
    ensures MergeAll(h).wipe <==> exists i :: 0 <= i < |h| && h[i].wipe
  {
    if |h| == 1 {
      assert h[1..] == [];
    } else {
      FlattenedUndoInfo(h[1..], info, status);
      if MergeAll(h[1..]).wipe {
        var i :| 0 <= i < |h[1..]| && h[1..][i].wipe;
        assert h[i + 1].wipe;
      }
      if exists i :: 0 < i < |h| && h[i].wipe {
        var i :| 0 < i < |h| && h[i].wipe;
        assert h[1..][i - 1].wipe;
      }
    }
  }

  predicate Touches(r: AccountRevert, s: Slot) {
    s in r.storage || r.wipe
  }

  function FirstTouch(h: seq<AccountRevert>, s: Slot): (i: nat)
    ensures i <= |h|
  {
    if h == [] || Touches(h[0], s) then 0 else 1 + FirstTouch(h[1..], s)
  }

  function FirstRecord(h: seq<AccountRevert>, s: Slot): (i: nat)
    ensures i <= |h|
    ensures i < |h| ==> s in h[i].storage
  {
    if h == [] || s in h[0].storage then 0 else 1 + FirstRecord(h[1..], s)
  }

  predicate AnyWipe(h: seq<AccountRevert>) {
    h != [] && (h[0].wipe || AnyWipe(h[1..]))
  }

  /** The condition under which flattening keeps the undo of a slot. Either the earliest transition
      that touches the slot wipes it without recording it, and then the earliest later record must
      lead to the database value as well; or it records a destroyed slot without wiping, and then a
      later wipe is harmless only if the database holds zero. */
  predicate FlattensSlot(h: seq<AccountRevert>, stored: Value, s: Slot) {
    var i, j := FirstTouch(h, s), FirstRecord(h, s);
    i < |h| ==>
      if s !in h[i].storage then j < |h| ==> h[j].storage[s] == ToDestroyed || h[j].storage[s] == ToValue(stored)
      else h[i].storage[s] == ToDestroyed && !h[i].wipe && AnyWipe(h) ==> stored == 0
  }

  lemma {:induction false} UndoSlotAllIsFirstTouch(h: seq<AccountRevert>, stored: Value, s: Slot, v: Value)
    ensures var i := FirstTouch(h, s);
            UndoSlotAll(h, stored, s, v) == if i == |h| then v else UndoSlot(h[i], stored, s, v)
    ensures FirstTouch(h, s) <= FirstRecord(h, s)
    ensures FirstTouch(h, s) < |h| ==> Touches(h[FirstTouch(h, s)], s)
    ensures FirstTouch(h, s) < |h| && s in h[FirstTouch(h, s)].storage ==> FirstRecord(h, s) == FirstTouch(h, s)
    ensures FirstTouch(h, s) < |h| && h[FirstTouch(h, s)].wipe ==> AnyWipe(h)
    ensures FirstTouch(h, s) == |h| ==> !AnyWipe(h)
  {
    if h != [] {
      UndoSlotAllIsFirstTouch(h[1..], stored, s, v);
    }
  }

  lemma {:induction false} MergedSlot(h: seq<AccountRevert>, stored: Value, s: Slot, v: Value)
    requires h != []
    ensures MergeAll(h).wipe == AnyWipe(h)
    ensures var j := FirstRecord(h, s);
            && (s in MergeAll(h).storage <==> j < |h|)
            && (j < |h| ==> MergeAll(h).storage[s] == h[j].storage[s])
  {
    if |h| == 1 {
      assert h[1..] == [];
    } else {
      MergedSlot(h[1..], stored, s, v);
    }
  }

  /** Undoing the flattened transition gives a slot the same value as undoing all transitions from
      last to first if and only if `FlattensSlot` holds. */
  lemma FlattenedUndoSlotIff(h: seq<AccountRevert>, stored: Value, s: Slot, v: Value)
    requires h != []
    ensures UndoSlot(MergeAll(h), stored, s, v) == UndoSlotAll(h, stored, s, v) <==> FlattensSlot(h, stored, s)
  {
    UndoSlotAllIsFirstTouch(h, stored, s, v);
    MergedSlot(h, stored, s, v);
  }

  /** The failing case: one flashblock destroys an account whose database slot 0 holds 5 without having
      loaded it, the next recreates it and writes the slot. Undone one by one the slot is 5 again;
      undone flattened it is 0. */
  lemma WipeThenRecordLosesSlot()
    ensures var wiped := AccountRevert(RevertTo(AccountInfo(1, 1, 1)), map[], Loaded, true);
            var recreated := AccountRevert(DeleteIt, map[0 := ToValue(0)], Destroyed, false);
            && UndoSlotAll([wiped, recreated], 5, 0, 9) == 5
            && UndoSlot(MergeAll([wiped, recreated]), 5, 0, 9) == 0
            && !FlattensSlot([wiped, recreated], 5, 0)
  {}

  // ---------------------------------------------------------------------------------------------
  // Histories whose transitions undo themselves
  // ---------------------------------------------------------------------------------------------

  datatype AccountState = AccountState(info: Option<AccountInfo>, status: Status, slots: map<Slot, Value>)

  function At(m: map<Slot, Value>, s: Slot): Value {
    if s in m then m[s] else 0
  }

  /** Undoing `r` after the transition from `pre` to `post` gives back the info, the status and the slot. */
  predicate Undoes(db: map<Slot, Value>, r: AccountRevert, pre: AccountState, post: AccountState, s: Slot) {
    && UndoInfo(r, post.info) == pre.info
    && r.previous == pre.status
    && UndoSlot(r, At(db, s), s, At(post.slots, s)) == At(pre.slots, s)
  }

  /** The states an account goes through, one per transition that reverts it; each revert undoes its own
      transition, wipes and destroyed slots included. */
  predicate SelfUndoing(db: map<Slot, Value>, h: seq<AccountRevert>, states: seq<AccountState>, s: Slot) {
    |states| == |h| + 1 && forall k :: 0 <= k < |h| ==> Undoes(db, h[k], states[k], states[k + 1], s)
  }

  lemma {:induction false} UndoAllRestores(db: map<Slot, Value>, h: seq<AccountRevert>, states: seq<AccountState>, s: Slot)
    requires SelfUndoing(db, h, states, s)
    ensures UndoInfoAll(h, states[|h|].info) == states[0].info
    ensures UndoStatusAll(h, states[|h|].status) == states[0].status
    ensures UndoSlotAll(h, At(db, s), s, At(states[|h|].slots, s)) == At(states[0].slots, s)
  {
    if h != [] {
      forall k | 0 <= k < |h[1..]| ensures Undoes(db, h[1..][k], states[1..][k], states[1..][k + 1], s) {
        assert Undoes(db, h[k + 1], states[k + 1], states[k + 2], s);
      }
      UndoAllRestores(db, h[1..], states[1..], s);
      assert Undoes(db, h[0], states[0], states[1], s);
    }
  }

  /** When every transition's own undo is right, undoing the single flattened transition restores the
      pre-block info and status, and a slot if and only if `FlattensSlot` holds of its history. */
  lemma FlattenedUndoRestores(db: map<Slot, Value>, h: seq<AccountRevert>, states: seq<AccountState>, s: Slot)
    requires h != [] && SelfUndoing(db, h, states, s)
    ensures var r, pre, post := MergeAll(h), states[0], states[|h|];
            && UndoInfo(r, post.info) == pre.info
            && r.previous == pre.status
            && (UndoSlot(r, At(db, s), s, At(post.slots, s)) == At(pre.slots, s) <==> FlattensSlot(h, At(db, s), s))
  {
    UndoAllRestores(db, h, states, s);
    FlattenedUndoInfo(h, states[|h|].info, states[|h|].status);
    FlattenedUndoSlotIff(h, At(db, s), s, At(states[|h|].slots, s));
  }

  /** `r` lists the prior value of every slot that changed, and of every slot that a wipe would not bring
      back from the database. */
  predicate ListsChanges(db: map<Slot, Value>, r: AccountRevert, pre: AccountState, post: AccountState, s: Slot) {
    if s in r.storage then r.storage[s] == ToValue(At(pre.slots, s))
    else At(post.slots, s) == At(pre.slots, s) && (r.wipe ==> At(pre.slots, s) == At(db, s))
  }

  /** Transitions that list their changes in full always flatten well. */
  lemma {:induction false} FullListingsFlatten(db: map<Slot, Value>, h: seq<AccountRevert>, states: seq<AccountState>, s: Slot)
    requires |states| == |h| + 1 && forall k :: 0 <= k < |h| ==> ListsChanges(db, h[k], states[k], states[k + 1], s)
    ensures FlattensSlot(h, At(db, s), s)
    ensures FirstRecord(h, s) < |h| ==> h[FirstRecord(h, s)].storage[s] == ToValue(At(states[0].slots, s))
    ensures FirstTouch(h, s) < FirstRecord(h, s) ==> At(states[0].slots, s) == At(db, s)
  {
    UndoSlotAllIsFirstTouch(h, At(db, s), s, 0);
    if h != [] {
      assert ListsChanges(db, h[0], states[0], states[1], s);
      forall k | 0 <= k < |h[1..]| ensures ListsChanges(db, h[1..][k], states[1..][k], states[1..][k + 1], s) {
        assert ListsChanges(db, h[k + 1], states[k + 1], states[k + 2], s);
      }
      FullListingsFlatten(db, h[1..], states[1..], s);
      UndoSlotAllIsFirstTouch(h[1..], At(db, s), s, 0);
    }
  }

  // ---------------------------------------------------------------------------------------------
  // The loops
  // ---------------------------------------------------------------------------------------------

  /** Keeps the earliest revert per slot. */
  method MergeStorage(first: map<Slot, SlotRevert>, later: map<Slot, SlotRevert>) returns (merged: map<Slot, SlotRevert>)
    ensures merged == later + first
  {
    merged := first;
    var todo := later.Keys;
    while todo != {}
      invariant todo <= later.Keys
      invariant merged.Keys == first.Keys + (later.Keys - todo)
      invariant forall s :: s in merged ==> merged[s] == if s in first then first[s] else later[s]
      decreases |todo|
    {
      var s :| s in todo;
      if s !in merged { merged := merged[s := later[s]]; }
      todo := todo - {s};
    }
  }

  method MergeInto(entry: AccountRevert, next: AccountRevert) returns (merged: AccountRevert)
    ensures merged == Merge(entry, next)
  {
    var storage := MergeStorage(entry.storage, next.storage);
    merged := entry.(wipe := entry.wipe || next.wipe, storage := storage);
    if merged.account == DoNothing && next.account != DoNothing {
      merged := merged.(account := next.account);
    }
  }

  method FlattenReverts(reverts: seq<Transition>) returns (flattened: seq<Transition>)
    ensures |flattened| == 1 && Lists(flattened[0], Flatten(reverts))
  {
    var perAccount: map<Addr, AccountRevert> := map[];
    for i := 0 to |reverts|
      invariant Fold(perAccount, Entries(reverts[i..])) == Flatten(reverts)
    {
      assert reverts[i..][1..] == reverts[i + 1..];
      perAccount := FlattenOne(perAccount, reverts[i], Entries(reverts[i + 1..]));
    }
    assert reverts[|reverts|..] == [];
    var listing := ListMap(perAccount);
    flattened := [listing];
  }

  method FlattenOne(m: map<Addr, AccountRevert>, t: Transition, ghost rest: Transition) returns (m': map<Addr, AccountRevert>)
    ensures Fold(m', rest) == Fold(m, t + rest)
  {
    m' := m;
    assert t[0..] == t;
    for i := 0 to |t|
      invariant Fold(m', t[i..] + rest) == Fold(m, t + rest)
    {
      var (addr, revert) := t[i];
      var merged := revert;
      if addr in m' { merged := MergeInto(m'[addr], revert); }
      assert (t[i..] + rest)[1..] == t[i + 1..] + rest;
      m' := m'[addr := merged];
    }
    assert t[|t|..] + rest == rest;
  }

  method ListMap(m: map<Addr, AccountRevert>) returns (t: Transition)
    ensures Lists(t, m)
  {
    t := [];
    var todo := m.Keys;
    while todo != {}
      invariant todo <= m.Keys
      invariant forall i, j :: 0 <= i < j < |t| ==> t[i].0 != t[j].0
      invariant forall i :: 0 <= i < |t| ==> t[i].0 in m && t[i].0 !in todo && m[t[i].0] == t[i].1
      invariant forall a :: a in m && a !in todo ==> exists i :: 0 <= i < |t| && t[i].0 == a
      decreases |todo|
    {
      var a :| a in todo;
      ghost var before := t;
      t := t + [(a, m[a])];
      todo := todo - {a};
      forall b | b in m && b !in todo ensures exists i :: 0 <= i < |t| && t[i].0 == b {
        if b == a {
          assert t[|before|].0 == b;
        } else {
          var i :| 0 <= i < |before| && before[i].0 == b;
          assert t[i].0 == b;
        }
      }
    }
  }
}
