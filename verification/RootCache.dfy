/** The sliding window of World ID roots a node accepts, over every history of blocks. */
module RootCaching {
  import opened Wrappers

  type Root = nat

  const EXPIRATION_WINDOW := 60 * 60 * 24 * 7

  /** A new block: the state lookups fail, or give the latest root if the contract has one. */
  datatype Event = LookupFailed | Observed(timestamp: nat, root: Option<Root>)

  type Roots = map<Root, nat>

  function Pruned(roots: Roots, latest: nat): Roots {
    if latest > EXPIRATION_WINDOW then map r | r in roots && roots[r] >= latest - EXPIRATION_WINDOW :: roots[r]
    else roots
  }

  function OnNewBlock(roots: Roots, e: Event): Roots {
    match e
    case LookupFailed => roots
    case Observed(t, None) => Pruned(roots, t)
    case Observed(t, Some(r)) => Pruned(roots[r := t], t)
  }

  /** At start-up the cache takes the root of the last block, if every lookup succeeds, without pruning. */
  function Initial(e: Event): Roots {
    if e.Observed? && e.root.Some? then map[e.root.value := e.timestamp] else map[]
  }

  function After(initial: Event, history: seq<Event>): Roots {
    if history == [] then Initial(initial)
    else OnNewBlock(After(initial, history[..|history| - 1]), history[|history| - 1])
  }

  /** Everything seen, the start-up block first. */
  function Seen(initial: Event, history: seq<Event>): seq<Event> {
    [initial] + history
  }

  predicate Shows(e: Event, r: Root) {
    e.Observed? && e.root == Some(r)
  }

  /** Event `i` is the last to show `r`, and no later block is more than the window ahead of it. */
  predicate Survives(seen: seq<Event>, r: Root, i: nat) {
    && i < |seen| && Shows(seen[i], r)
    && (forall j :: i < j < |seen| ==> !Shows(seen[j], r))
    && forall j :: i < j < |seen| && seen[j].Observed? ==> seen[j].timestamp <= seen[i].timestamp + EXPIRATION_WINDOW
  }

  lemma SurvivesStep(seen: seq<Event>, e: Event, r: Root, i: nat)
    requires i < |seen|
    ensures Survives(seen + [e], r, i) <==>
            Survives(seen, r, i) && !Shows(e, r) && (e.Observed? ==> e.timestamp <= seen[i].timestamp + EXPIRATION_WINDOW)
  {
    var all := seen + [e];
    assert forall j :: 0 <= j < |seen| ==> all[j] == seen[j];
    assert all[|seen|] == e;
  }

  ghost predicate SurvivesWith(seen: seq<Event>, r: Root, t: nat) {
    exists i: nat :: Survives(seen, r, i) && seen[i].timestamp == t
  }

  lemma SurvivesWithStep(seen: seq<Event>, e: Event, r: Root, t: nat)
    ensures SurvivesWith(seen + [e], r, t) <==>
            if Shows(e, r) then t == e.timestamp
            else SurvivesWith(seen, r, t) && (e.Observed? ==> e.timestamp <= t + EXPIRATION_WINDOW)
  {
    var all := seen + [e];
    assert all[|seen|] == e;
    if Shows(e, r) {
      assert Survives(all, r, |seen|);
      if i: nat :| Survives(all, r, i) && all[i].timestamp == t { assert i == |seen|; }
    } else {
      if i: nat :| Survives(all, r, i) && all[i].timestamp == t { SurvivesStep(seen, e, r, i); }
      if i: nat :| Survives(seen, r, i) && seen[i].timestamp == t {
        SurvivesStep(seen, e, r, i);
        assert all[i].timestamp == t;
      }
    }
  }

  lemma OnNewBlockAt(roots: Roots, e: Event, r: Root, t: nat)
    ensures r in OnNewBlock(roots, e) && OnNewBlock(roots, e)[r] == t <==>
            if Shows(e, r) then t == e.timestamp
            else r in roots && roots[r] == t && (e.Observed? ==> e.timestamp <= t + EXPIRATION_WINDOW)
  {}

  /** For any timestamps: a root is cached, with its timestamp, exactly when its last showing survives every
      later block. */
  lemma {:induction false} CachedIffSurvives(initial: Event, history: seq<Event>, r: Root, t: nat)
    ensures r in After(initial, history) && After(initial, history)[r] == t <==> SurvivesWith(Seen(initial, history), r, t)
  {
    if history == [] {
      assert Seen(initial, history) == [] + [initial];
      SurvivesWithStep([], initial, r, t);
    } else {
      var before, e := history[..|history| - 1], history[|history| - 1];
      CachedIffSurvives(initial, before, r, t);
      assert Seen(initial, history) == Seen(initial, before) + [e];
      SurvivesWithStep(Seen(initial, before), e, r, t);
      OnNewBlockAt(After(initial, before), e, r, t);
    }
  }

  lemma Cached(initial: Event, history: seq<Event>, r: Root)
    ensures r in After(initial, history) <==> exists i: nat :: Survives(Seen(initial, history), r, i)
  {
    var roots, seen := After(initial, history), Seen(initial, history);
    if r in roots { CachedIffSurvives(initial, history, r, roots[r]); }
    if i: nat :| Survives(seen, r, i) {
      assert SurvivesWith(seen, r, seen[i].timestamp);
      CachedIffSurvives(initial, history, r, seen[i].timestamp);
    }
  }

  predicate NonDecreasing(seen: seq<Event>) {
    forall i, j :: 0 <= i < j < |seen| && seen[i].Observed? && seen[j].Observed? ==> seen[i].timestamp <= seen[j].timestamp
  }

  /** The timestamp of the last block observed. */
  function LatestTime(seen: seq<Event>): nat {
    if seen == [] then 0
    else if seen[|seen| - 1].Observed? then seen[|seen| - 1].timestamp else LatestTime(seen[..|seen| - 1])
  }

  lemma {:induction false} LatestTimeIsLast(seen: seq<Event>)
    requires NonDecreasing(seen)
    ensures forall i :: 0 <= i < |seen| && seen[i].Observed? ==> seen[i].timestamp <= LatestTime(seen)
    ensures (exists i :: 0 <= i < |seen| && seen[i].Observed?) ==>
              exists i :: 0 <= i < |seen| && seen[i].Observed? && seen[i].timestamp == LatestTime(seen)
  {
    if seen != [] && !seen[|seen| - 1].Observed? {
      var before := seen[..|seen| - 1];
      LatestTimeIsLast(before);
      assert forall i :: 0 <= i < |seen| && seen[i].Observed? ==> i < |before| && before[i] == seen[i];
      if exists i :: 0 <= i < |seen| && seen[i].Observed? {
        var i :| 0 <= i < |seen| && seen[i].Observed?;
        assert before[i].Observed?;
        var k :| 0 <= k < |before| && before[k].Observed? && before[k].timestamp == LatestTime(before);
        assert seen[k].timestamp == LatestTime(seen);
      }
    }
  }

  lemma {:induction false} LastShowing(seen: seq<Event>, r: Root, i: nat) returns (k: nat)
    requires i < |seen| && Shows(seen[i], r)
    ensures i <= k < |seen| && Shows(seen[k], r) && forall j :: k < j < |seen| ==> !Shows(seen[j], r)
    decreases |seen| - i
  {
    if j :| i < j < |seen| && Shows(seen[j], r) {
      k := LastShowing(seen, r, j);
    } else {
      k := i;
    }
  }

  /** When timestamps never go back, a root is cached exactly when some block showed it no more than the
      expiration window before the latest block. */
  lemma CachedIffShownRecently(initial: Event, history: seq<Event>, r: Root)
    requires NonDecreasing(Seen(initial, history))
    ensures r in After(initial, history) <==>
            exists i :: 0 <= i < |Seen(initial, history)| && Shows(Seen(initial, history)[i], r)
                        && Seen(initial, history)[i].timestamp + 604_800 >= LatestTime(Seen(initial, history))
  {
    var seen := Seen(initial, history);
    Cached(initial, history, r);
    LatestTimeIsLast(seen);
    if r in After(initial, history) {
      var i: nat :| Survives(seen, r, i);
      var k :| 0 <= k < |seen| && seen[k].Observed? && seen[k].timestamp == LatestTime(seen);
      assert seen[i].timestamp + EXPIRATION_WINDOW >= LatestTime(seen);
    }
    if i :| 0 <= i < |seen| && Shows(seen[i], r) && seen[i].timestamp + EXPIRATION_WINDOW >= LatestTime(seen) {
      var k := LastShowing(seen, r, i);
      assert Survives(seen, r, k);
    }
  }

  /** The window is judged against every later block: one block far in the future forgets a root for good,
      even if the next block is back inside the window. */
  lemma TimestampJumpForgets()
    ensures var far := Observed(2 * EXPIRATION_WINDOW, None);
            && 7 in After(Observed(0, Some(7)), [Observed(1, None)])
            && 7 !in After(Observed(0, Some(7)), [far, Observed(1, None)])
  {}

  class RootProvider {
    var validRoots: Roots
    var latestTimestamp: nat
    ghost var initial: Event
    ghost var history: seq<Event>

    ghost predicate Valid()
      reads this
    {
      validRoots == After(initial, history)
    }

    constructor (block: Event)
      ensures Valid() && initial == block && history == []
    {
      validRoots, latestTimestamp, initial, history := map[], 0, block, [];
      if block.Observed? && block.root.Some? {
        latestTimestamp := block.timestamp;
        validRoots := map[block.root.value := block.timestamp];
      }
    }

    method NewBlock(e: Event) returns (ok: bool)
      requires Valid()
      modifies this
      ensures Valid() && history == old(history) + [e] && initial == old(initial)
      ensures ok <==> e.Observed?
      ensures latestTimestamp == if ok then e.timestamp else old(latestTimestamp)
    {
      ghost var after := history + [e];
      assert after[..|after| - 1] == history;
      history := after;
      if e.LookupFailed? { return false; }
      latestTimestamp := e.timestamp;
      if e.root.Some? {
        validRoots := validRoots[e.root.value := e.timestamp];
      }
      PruneInvalid();
      return true;
    }

    method PruneInvalid()
      modifies this`validRoots
      ensures validRoots == Pruned(old(validRoots), latestTimestamp)
    {
      if latestTimestamp > EXPIRATION_WINDOW {
        var oldest := latestTimestamp - EXPIRATION_WINDOW;
        validRoots := map r | r in validRoots && validRoots[r] >= oldest :: validRoots[r];
      }
    }

    method Contains(r: Root) returns (present: bool)
      requires Valid()
      ensures present <==> exists i: nat :: Survives(Seen(initial, history), r, i)
    {
      Cached(initial, history, r);
      present := r in validRoots;
    }
  }

  /** What start-up finds: no last block number, a last block that cannot be read, or what the block shows. */
  datatype Startup = NoLastBlock | BlockUnreadable | Found(block: Event)

  /** Opens the cache; the one error is a last block that cannot be read. */
  method NewRootProvider(startup: Startup) returns (provider: RootProvider?)
    ensures provider == null <==> startup.BlockUnreadable?
    ensures provider != null ==>
            && fresh(provider) && provider.Valid() && provider.history == []
            && provider.initial == if startup.Found? then startup.block else LookupFailed
  {
    if startup.BlockUnreadable? { return null; }
    provider := new RootProvider(if startup.Found? then startup.block else LookupFailed);
  }
}
