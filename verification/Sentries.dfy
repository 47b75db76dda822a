/** Rendezvous selection of flashblocks sentries and the peer policy that enforces it. */
module Sentries {
  import opened Wrappers

  /** Peer identifiers in the byte order of their public keys. */
  type PeerId = nat

  /** The keccak weight of a candidate for the local peer, as a number. */
  type Score = PeerId -> nat

  predicate Better(score: Score, x: PeerId, y: PeerId) {
    score(x) > score(y) || (score(x) == score(y) && x < y)
  }

  predicate Ranked(score: Score, s: seq<PeerId>) {
    forall i, j :: 0 <= i < j < |s| ==> Better(score, s[i], s[j])
  }

  predicate Descending(score: Score, s: seq<PeerId>) {
    forall i, j :: 0 <= i < j < |s| ==> s[i] == s[j] || Better(score, s[i], s[j])
  }

  // ---------------------------------------------------------------------------------------------
  // Ranking
  // ---------------------------------------------------------------------------------------------

  function Candidates(local: PeerId, ids: seq<PeerId>): seq<PeerId> {
    if ids == [] then [] else (if ids[0] != local then [ids[0]] else []) + Candidates(local, ids[1..])
  }

  function Place(score: Score, x: PeerId, s: seq<PeerId>): seq<PeerId> {
    if s == [] || x == s[0] || Better(score, x, s[0]) then [x] + s else [s[0]] + Place(score, x, s[1..])
  }

  function Sort(score: Score, s: seq<PeerId>): seq<PeerId> {
    if s == [] then [] else Place(score, s[0], Sort(score, s[1..]))
  }

  /** Drops elements equal to their predecessor. */
  function Dedup(s: seq<PeerId>): seq<PeerId> {
    if |s| < 2 then s else if s[0] == s[1] then Dedup(s[1..]) else [s[0]] + Dedup(s[1..])
  }

  function Rank(score: Score, local: PeerId, ids: seq<PeerId>): seq<PeerId> {
    Dedup(Sort(score, Candidates(local, ids)))
  }

  lemma {:induction false} CandidatesOf(local: PeerId, ids: seq<PeerId>)
    ensures forall x :: x in Candidates(local, ids) <==> x in ids && x != local
  {
    if ids != [] {
      CandidatesOf(local, ids[1..]);
      assert ids == [ids[0]] + ids[1..];
    }
  }

  lemma {:induction false} PlaceDescends(score: Score, x: PeerId, s: seq<PeerId>)
    requires Descending(score, s)
    ensures Descending(score, Place(score, x, s))
    ensures forall y :: y in Place(score, x, s) <==> y == x || y in s
  {
    if !(s == [] || x == s[0] || Better(score, x, s[0])) {
      PlaceDescends(score, x, s[1..]);
      assert s == [s[0]] + s[1..];
      var rest := Place(score, x, s[1..]);
      forall j | 0 <= j < |rest| ensures s[0] == rest[j] || Better(score, s[0], rest[j]) {
        assert rest[j] in rest;
      }
    }
  }

  lemma {:induction false} SortDescends(score: Score, s: seq<PeerId>)
    ensures Descending(score, Sort(score, s))
    ensures forall x :: x in Sort(score, s) <==> x in s
  {
    if s != [] {
      SortDescends(score, s[1..]);
      PlaceDescends(score, s[0], Sort(score, s[1..]));
      assert s == [s[0]] + s[1..];
    }
  }

  lemma {:induction false} DedupRanks(score: Score, s: seq<PeerId>)
    requires Descending(score, s)
    ensures Ranked(score, Dedup(s))
    ensures forall x :: x in Dedup(s) <==> x in s
  {
    if |s| >= 2 {
      DedupRanks(score, s[1..]);
      assert s == [s[0]] + s[1..];
      var rest := Dedup(s[1..]);
      if s[0] != s[1] {
        forall j | 0 <= j < |rest| ensures Better(score, s[0], rest[j]) {
          assert rest[j] in s[1..];
          assert Better(score, s[0], s[1]);
        }
      }
    }
  }

  /** The ranking lists every candidate other than the local peer exactly once, best first. */
  lemma RankIsRanked(score: Score, local: PeerId, ids: seq<PeerId>)
    ensures Ranked(score, Rank(score, local, ids))
    ensures forall x :: x in Rank(score, local, ids) <==> x in ids && x != local
  {
    CandidatesOf(local, ids);
    SortDescends(score, Candidates(local, ids));
    DedupRanks(score, Sort(score, Candidates(local, ids)));
  }

  lemma {:induction false} RankedListsAgree(score: Score, s: seq<PeerId>, t: seq<PeerId>)
    requires Ranked(score, s) && Ranked(score, t)
    requires forall x :: x in s <==> x in t
    ensures s == t
  {
    assert s != [] ==> s[0] in s;
    assert t != [] ==> t[0] in t;
    if s != [] {
      assert s[0] in t;
      assert s == [s[0]] + s[1..] && t == [t[0]] + t[1..];
      assert s[0] == t[0];
      forall x ensures x in s[1..] <==> x in t[1..] {
        assert x in s[1..] <==> x in s && x != s[0];
        assert x in t[1..] <==> x in t && x != t[0];
      }
      RankedListsAgree(score, s[1..], t[1..]);
    }
  }

  /** Reordering or repeating entries of the configured pool does not change the ranking. */
  lemma RankDependsOnSet(score: Score, local: PeerId, ids: seq<PeerId>, ids': seq<PeerId>)
    requires forall x :: x in ids <==> x in ids'
    ensures Rank(score, local, ids) == Rank(score, local, ids')
  {
    RankIsRanked(score, local, ids);
    RankIsRanked(score, local, ids');
    RankedListsAgree(score, Rank(score, local, ids), Rank(score, local, ids'));
  }

  // ---------------------------------------------------------------------------------------------
  // Selection
  // ---------------------------------------------------------------------------------------------

  function Take(s: seq<PeerId>, n: nat): seq<PeerId> {
    if n <= |s| then s[..n] else s
  }

  function Selected(score: Score, local: PeerId, ids: seq<PeerId>, max: nat): seq<PeerId> {
    Take(Rank(score, local, ids), max)
  }

  /** The candidates with a higher score than `x`, or the same score and a lower identifier. */
  ghost function Beating(score: Score, local: PeerId, ids: seq<PeerId>, x: PeerId): set<PeerId> {
    set y | y in ids && y != local && (score(y) > score(x) || (score(y) == score(x) && y < x))
  }

  predicate NoRepeats(s: seq<PeerId>) {
    forall i, j :: 0 <= i < j < |s| ==> s[i] != s[j]
  }

  function FirstIds(s: seq<PeerId>, n: nat): set<PeerId>
    requires n <= |s|
  {
    set i | 0 <= i < n :: s[i]
  }

  lemma {:induction false} PrefixSize(s: seq<PeerId>, n: nat)
    requires n <= |s| && NoRepeats(s)
    ensures |FirstIds(s, n)| == n
  {
    if n > 0 {
      PrefixSize(s, n - 1);
      assert s[n - 1] !in FirstIds(s, n - 1);
      assert FirstIds(s, n) == FirstIds(s, n - 1) + {s[n - 1]};
    }
  }

  /** A candidate is selected exactly when fewer than `max` candidates come before it. */
  lemma SelectedIffFewBeatIt(score: Score, local: PeerId, ids: seq<PeerId>, max: nat, x: PeerId)
    ensures x in Selected(score, local, ids, max) <==>
            x in ids && x != local && |Beating(score, local, ids, x)| < max
  {
    var ranked := Rank(score, local, ids);
    RankIsRanked(score, local, ids);
    if x in ranked {
      var k :| 0 <= k < |ranked| && ranked[k] == x;
      assert Beating(score, local, ids, x) == FirstIds(ranked, k) by {
        forall y ensures y in Beating(score, local, ids, x) <==> exists i :: 0 <= i < k && ranked[i] == y {
          if y in Beating(score, local, ids, x) {
            var i :| 0 <= i < |ranked| && ranked[i] == y;
            assert i < k;
          }
          if i :| 0 <= i < k && ranked[i] == y {
            assert y in ranked;
          }
        }
      }
      PrefixSize(ranked, k);
      assert x in Selected(score, local, ids, max) <==> k < max;
    }
  }

  function Without(s: seq<PeerId>, x: PeerId): seq<PeerId> {
    Candidates(x, s)
  }

  lemma {:induction false} WithoutKeepsRanked(score: Score, s: seq<PeerId>, x: PeerId)
    requires Ranked(score, s)
    ensures Ranked(score, Without(s, x))
  {
    if s != [] {
      WithoutKeepsRanked(score, s[1..], x);
      CandidatesOf(x, s[1..]);
      var rest := Without(s[1..], x);
      forall j | 0 <= j < |rest| ensures Better(score, s[0], rest[j]) {
        assert rest[j] in s[1..];
      }
    }
  }

  lemma {:induction false} WithoutAt(s: seq<PeerId>, k: nat)
    requires k < |s| && NoRepeats(s)
    ensures Without(s, s[k]) == s[..k] + s[k + 1..]
  {
    if k == 0 {
      WithoutAbsent(s[1..], s[0]);
    } else {
      assert s[1..][k - 1] == s[k];
      WithoutAt(s[1..], k - 1);
      assert s[1..][..k - 1] + s[1..][k..] == s[1..k] + s[k + 1..];
    }
  }

  lemma {:induction false} WithoutAbsent(s: seq<PeerId>, x: PeerId)
    requires x !in s
    ensures Without(s, x) == s
  {
    if s != [] {
      assert s[0] in s;
      WithoutAbsent(s[1..], x);
    }
  }

  lemma RankWithout(score: Score, local: PeerId, ids: seq<PeerId>, x: PeerId)
    ensures Rank(score, local, Without(ids, x)) == Without(Rank(score, local, ids), x)
  {
    RankIsRanked(score, local, ids);
    RankIsRanked(score, local, Without(ids, x));
    CandidatesOf(x, ids);
    CandidatesOf(x, Rank(score, local, ids));
    WithoutKeepsRanked(score, Rank(score, local, ids), x);
    RankedListsAgree(score, Rank(score, local, Without(ids, x)), Without(Rank(score, local, ids), x));
  }

  lemma TakeShifted(s: seq<PeerId>, max: nat, k: nat)
    requires k < |s|
    ensures max <= k ==> Take(s[..k] + s[k + 1..], max) == Take(s, max)
    ensures k < max ==> Take(s[..k] + s[k + 1..], max)
                        == Take(s, max)[..k] + Take(s, max)[k + 1..] + (if max < |s| then [s[max]] else [])
  {}

  lemma TakeWithoutAt(s: seq<PeerId>, max: nat, k: nat)
    requires NoRepeats(s) && k < |s|
    ensures Take(Without(s, s[k]), max)
            == if max <= k then Take(s, max) else Without(Take(s, max), s[k]) + (if max < |s| then [s[max]] else [])
  {
    WithoutAt(s, k);
    TakeShifted(s, max, k);
    if k < max { WithoutAt(Take(s, max), k); }
  }

  lemma TakeWithout(s: seq<PeerId>, max: nat, x: PeerId)
    requires NoRepeats(s)
    ensures Take(Without(s, x), max)
            == if x !in Take(s, max) then Take(s, max)
               else Without(Take(s, max), x) + (if max < |s| then [s[max]] else [])
  {
    if x in s {
      var k :| 0 <= k < |s| && s[k] == x;
      TakeWithoutAt(s, max, k);
      assert x in Take(s, max) <==> k < max by {
        if k < max { assert Take(s, max)[k] == x; }
      }
    } else {
      WithoutAbsent(s, x);
    }
  }

  /** Removing one sentry from the pool leaves the selection alone unless that sentry was selected; then
      the next sentry in the ranking takes its place and everyone else stays. Read from right to left this
      is the effect of adding a sentry. */
  lemma RemovalDisturbsOnlyItself(score: Score, local: PeerId, ids: seq<PeerId>, max: nat, x: PeerId)
    ensures var before, after := Selected(score, local, ids, max), Selected(score, local, Without(ids, x), max);
            var ranked := Rank(score, local, ids);
            if x !in before then after == before
            else after == Without(before, x) + (if max < |ranked| then [ranked[max]] else [])
  {
    RankWithout(score, local, ids, x);
    RankIsRanked(score, local, ids);
    TakeWithout(Rank(score, local, ids), max, x);
  }

  // ---------------------------------------------------------------------------------------------
  // Policy
  // ---------------------------------------------------------------------------------------------

  datatype Peer = Peer(id: PeerId, address: string)

  datatype Peers = Peers(trusted: seq<Peer>, basic: set<Peer>, persisted: seq<Peer>, banned: set<PeerId>)

  function Ids(peers: seq<Peer>): seq<PeerId> {
    seq(|peers|, i requires 0 <= i < |peers| => peers[i].id)
  }

  function Retain(peers: seq<Peer>, drop: set<PeerId>): seq<Peer> {
    if peers == [] then [] else (if peers[0].id in drop then [] else [peers[0]]) + Retain(peers[1..], drop)
  }

  /** The first entry of every selected sentry that is not trusted yet, in pool order. */
  function Missing(sentries: seq<Peer>, selected: set<PeerId>, trusted: set<PeerId>): seq<Peer>
    decreases |sentries|
  {
    if sentries == [] then []
    else if sentries[0].id in selected && sentries[0].id !in trusted then
      [sentries[0]] + Missing(sentries[1..], selected, trusted + {sentries[0].id})
    else Missing(sentries[1..], selected, trusted)
  }

  function IdSet(ids: seq<PeerId>): set<PeerId> {
    set x | x in ids
  }

  function Enforce(peers: Peers, selected: set<PeerId>, local: PeerId, sentries: seq<Peer>): Peers {
    var all := IdSet(Ids(sentries));
    var kept := Retain(peers.trusted, all - selected);
    Peers(kept + Missing(sentries, selected, IdSet(Ids(kept))),
          (set p | p in peers.basic && p.id !in all),
          Retain(peers.persisted, all),
          peers.banned + (all - selected - {local}))
  }

  function Apply(peers: Peers, score: Score, local: PeerId, sentries: seq<Peer>, max: nat): Peers {
    Enforce(peers, IdSet(Selected(score, local, Ids(sentries), max)), local, sentries)
  }

  predicate Trusts(peers: Peers, x: PeerId) {
    x in Ids(peers.trusted)
  }

  predicate Knows(peers: Peers, x: PeerId) {
    x in Ids(peers.persisted) || exists p :: p in peers.basic && p.id == x
  }

  lemma IdsAppend(s: seq<Peer>, t: seq<Peer>)
    ensures Ids(s + t) == Ids(s) + Ids(t)
  {}

  lemma {:induction false} RetainOf(peers: seq<Peer>, drop: set<PeerId>, x: PeerId)
    ensures x in Ids(Retain(peers, drop)) <==> x in Ids(peers) && x !in drop
  {
    if peers != [] {
      RetainOf(peers[1..], drop, x);
      assert peers == [peers[0]] + peers[1..];
      IdsAppend([peers[0]], peers[1..]);
      IdsAppend(if peers[0].id in drop then [] else [peers[0]], Retain(peers[1..], drop));
    }
  }

  lemma {:induction false} MissingOf(sentries: seq<Peer>, selected: set<PeerId>, trusted: set<PeerId>, x: PeerId)
    ensures x in Ids(Missing(sentries, selected, trusted)) <==> x in Ids(sentries) && x in selected && x !in trusted
    decreases |sentries|
  {
    if sentries != [] {
      var first := sentries[0];
      assert sentries == [first] + sentries[1..];
      IdsAppend([first], sentries[1..]);
      assert Ids([first]) == [first.id];
      if first.id in selected && first.id !in trusted {
        MissingOf(sentries[1..], selected, trusted + {first.id}, x);
        IdsAppend([first], Missing(sentries[1..], selected, trusted + {first.id}));
      } else {
        MissingOf(sentries[1..], selected, trusted, x);
      }
    }
  }

  predicate FirstOfId(peers: seq<Peer>, k: nat, p: Peer) {
    k < |peers| && peers[k] == p && forall i :: 0 <= i < k ==> peers[i].id != p.id
  }

  /** What is added for a sentry is the first record the pool has of it. */
  lemma {:induction false} MissingIsFirst(sentries: seq<Peer>, selected: set<PeerId>, trusted: set<PeerId>, p: Peer)
    requires p in Missing(sentries, selected, trusted)
    ensures p.id in selected && p.id !in trusted && exists k: nat :: FirstOfId(sentries, k, p)
    decreases |sentries|
  {
    var first, rest := sentries[0], sentries[1..];
    var adds := first.id in selected && first.id !in trusted;
    if adds && p == first {
      assert FirstOfId(sentries, 0, p);
    } else {
      MissingIsFirst(rest, selected, if adds then trusted + {first.id} else trusted, p);
      var k: nat :| FirstOfId(rest, k, p);
      assert FirstOfId(sentries, k + 1, p);
    }
  }

  lemma {:induction false} RetainTwice(peers: seq<Peer>, drop: set<PeerId>, more: set<PeerId>)
    requires drop <= more
    ensures Retain(Retain(peers, drop), more) == Retain(peers, more)
  {
    if peers != [] {
      RetainTwice(peers[1..], drop, more);
      if peers[0].id in drop {
        assert Retain(peers, drop) == Retain(peers[1..], drop);
      } else {
        assert Retain(peers, drop)[1..] == Retain(peers[1..], drop);
      }
    }
  }

  lemma {:induction false} RetainAppend(s: seq<Peer>, t: seq<Peer>, drop: set<PeerId>)
    ensures Retain(s + t, drop) == Retain(s, drop) + Retain(t, drop)
  {
    if s == [] {
      assert s + t == t;
    } else {
      assert (s + t)[1..] == s[1..] + t;
      RetainAppend(s[1..], t, drop);
    }
  }

  lemma {:induction false} MissingInPool(sentries: seq<Peer>, selected: set<PeerId>, trusted: set<PeerId>, all: set<PeerId>)
    requires forall x :: x in Ids(sentries) ==> x in all
    ensures Retain(Missing(sentries, selected, trusted), all) == []
    decreases |sentries|
  {
    if sentries != [] {
      var first, rest := sentries[0], sentries[1..];
      assert Ids(sentries)[0] == first.id;
      assert forall i :: 0 <= i < |rest| ==> Ids(rest)[i] == Ids(sentries)[i + 1];
      if first.id in selected && first.id !in trusted {
        MissingInPool(rest, selected, trusted + {first.id}, all);
        assert Missing(sentries, selected, trusted)[1..] == Missing(rest, selected, trusted + {first.id});
      } else {
        MissingInPool(rest, selected, trusted, all);
      }
    }
  }

  /** Peers outside the pool keep their records and their order. */
  lemma PolicyKeepsOthers(peers: Peers, score: Score, local: PeerId, sentries: seq<Peer>, max: nat)
    ensures var after, all := Apply(peers, score, local, sentries, max), IdSet(Ids(sentries));
            && Retain(after.trusted, all) == Retain(peers.trusted, all)
            && Retain(after.persisted, all) == after.persisted == Retain(peers.persisted, all)
            && after.basic == set p | p in peers.basic && p.id !in all
  {
    var selected, all := IdSet(Selected(score, local, Ids(sentries), max)), IdSet(Ids(sentries));
    var kept := Retain(peers.trusted, all - selected);
    RetainTwice(peers.trusted, all - selected, all);
    RetainTwice(peers.persisted, all, all);
    MissingInPool(sentries, selected, IdSet(Ids(kept)), all);
    RetainAppend(kept, Missing(sentries, selected, IdSet(Ids(kept))), all);
  }

  lemma EnforceMeans(peers: Peers, selected: set<PeerId>, local: PeerId, sentries: seq<Peer>, x: PeerId)
    requires selected <= IdSet(Ids(sentries))
    ensures var after := Enforce(peers, selected, local, sentries);
            && (Trusts(after, x) <==> x in selected || (x !in Ids(sentries) && Trusts(peers, x)))
            && (x in after.banned <==> x in peers.banned || (x in Ids(sentries) && x !in selected && x != local))
            && (Knows(after, x) <==> x !in Ids(sentries) && Knows(peers, x))
  {
    var all := IdSet(Ids(sentries));
    var kept := Retain(peers.trusted, all - selected);
    RetainOf(peers.trusted, all - selected, x);
    RetainOf(peers.persisted, all, x);
    MissingOf(sentries, selected, IdSet(Ids(kept)), x);
    IdsAppend(kept, Missing(sentries, selected, IdSet(Ids(kept))));
  }

  lemma SelectedInPool(score: Score, local: PeerId, ids: seq<PeerId>, max: nat)
    ensures IdSet(Selected(score, local, ids, max)) <= IdSet(ids)
    ensures local !in Selected(score, local, ids, max)
  {
    RankIsRanked(score, local, ids);
    assert forall x :: x in Selected(score, local, ids, max) ==> x in Rank(score, local, ids);
  }

  /** Afterwards a pool member is trusted exactly when it is selected, an unselected one other than the
      local peer is banned, and none is left among the basic or persisted peers. The local peer is never
      newly banned. Peers outside the pool are untouched. */
  lemma PolicyEnforcesSelection(peers: Peers, score: Score, local: PeerId, sentries: seq<Peer>, max: nat, x: PeerId)
    ensures var after, selected := Apply(peers, score, local, sentries, max), Selected(score, local, Ids(sentries), max);
            if x in Ids(sentries) then
              && (Trusts(after, x) <==> x in selected)
              && (x in after.banned <==> x in peers.banned || (x !in selected && x != local))
              && !Knows(after, x)
            else
              && (Trusts(after, x) <==> Trusts(peers, x))
              && (x in after.banned <==> x in peers.banned)
              && (Knows(after, x) <==> Knows(peers, x))
  {
    SelectedInPool(score, local, Ids(sentries), max);
    EnforceMeans(peers, IdSet(Selected(score, local, Ids(sentries), max)), local, sentries, x);
  }

  lemma {:induction false} RetainNoRepeats(peers: seq<Peer>, drop: set<PeerId>)
    requires NoRepeats(Ids(peers))
    ensures NoRepeats(Ids(Retain(peers, drop)))
  {
    if peers != [] {
      var rest := peers[1..];
      assert forall i :: 0 <= i < |rest| ==> Ids(rest)[i] == Ids(peers)[i + 1];
      RetainNoRepeats(rest, drop);
      RetainOf(rest, drop, peers[0].id);
      assert Ids(peers)[0] == peers[0].id && peers[0].id !in Ids(rest);
      IdsAppend(if peers[0].id in drop then [] else [peers[0]], Retain(rest, drop));
    }
  }

  lemma {:induction false} MissingNoRepeats(sentries: seq<Peer>, selected: set<PeerId>, trusted: set<PeerId>)
    ensures NoRepeats(Ids(Missing(sentries, selected, trusted)))
    decreases |sentries|
  {
    if sentries != [] {
      var first, rest := sentries[0], sentries[1..];
      if first.id in selected && first.id !in trusted {
        MissingNoRepeats(rest, selected, trusted + {first.id});
        MissingOf(rest, selected, trusted + {first.id}, first.id);
        IdsAppend([first], Missing(rest, selected, trusted + {first.id}));
      } else {
        MissingNoRepeats(rest, selected, trusted);
      }
    }
  }

  /** No peer is trusted twice unless the operator listed it twice. */
  lemma PolicyTrustsOnce(peers: Peers, score: Score, local: PeerId, sentries: seq<Peer>, max: nat)
    requires NoRepeats(Ids(peers.trusted))
    ensures NoRepeats(Ids(Apply(peers, score, local, sentries, max).trusted))
  {
    var selected, all := IdSet(Selected(score, local, Ids(sentries), max)), IdSet(Ids(sentries));
    var kept := Retain(peers.trusted, all - selected);
    var added := Missing(sentries, selected, IdSet(Ids(kept)));
    RetainNoRepeats(peers.trusted, all - selected);
    MissingNoRepeats(sentries, selected, IdSet(Ids(kept)));
    IdsAppend(kept, added);
    forall j | 0 <= j < |added| ensures Ids(added)[j] !in Ids(kept) {
      assert Ids(added)[j] in Ids(added);
      MissingOf(sentries, selected, IdSet(Ids(kept)), Ids(added)[j]);
    }
  }

  /** At most `max` pool members are trusted. */
  lemma PolicyTrustsAtMostMax(peers: Peers, score: Score, local: PeerId, sentries: seq<Peer>, max: nat)
    ensures var after := Apply(peers, score, local, sentries, max);
            |set x | x in Ids(sentries) && Trusts(after, x)| <= max
  {
    var after, chosen := Apply(peers, score, local, sentries, max), Selected(score, local, Ids(sentries), max);
    var members := set x | x in Ids(sentries) && Trusts(after, x);
    forall x | x in members ensures x in chosen {
      PolicyEnforcesSelection(peers, score, local, sentries, max, x);
    }
    assert |chosen| <= max;
    RankIsRanked(score, local, Ids(sentries));
    PrefixSize(chosen, |chosen|);
    var elements := FirstIds(chosen, |chosen|);
    assert members <= elements;
    Subset(members, elements);
  }

  lemma Subset(s: set<PeerId>, t: set<PeerId>)
    requires s <= t
    ensures |s| <= |t|
  {
    assert t == s + (t - s);
  }

  // ---------------------------------------------------------------------------------------------
  // The peer configuration
  // ---------------------------------------------------------------------------------------------

  class PeersConfig {
    var trusted: seq<Peer>
    var basic: set<Peer>
    var persisted: seq<Peer>
    var banned: set<PeerId>

    ghost function State(): Peers
      reads this
    {
      Peers(trusted, basic, persisted, banned)
    }

    method ApplySentryPolicy(score: Score, local: PeerId, sentries: seq<Peer>, max: nat) returns (selected: seq<PeerId>)
      modifies this
      ensures State() == Apply(old(State()), score, local, sentries, max)
      ensures selected == Selected(score, local, Ids(sentries), max)
    {
      selected := Selected(score, local, Ids(sentries), max);
      EnforceSelection(IdSet(selected), local, sentries);
    }

    method EnforceSelection(chosen: set<PeerId>, local: PeerId, sentries: seq<Peer>)
      modifies this
      ensures State() == Enforce(old(State()), chosen, local, sentries)
    {
      var all := IdSet(Ids(sentries));
      trusted := Retain(trusted, all - chosen);
      basic := set p | p in basic && p.id !in all;
      persisted := Retain(persisted, all);
      AddMissing(sentries, chosen);
      Ban(all - chosen, local);
    }

    method Ban(excluded: set<PeerId>, local: PeerId)
      modifies this`banned
      ensures banned == old(banned) + (excluded - {local})
    {
      var todo := excluded;
      while todo != {}
        invariant todo <= excluded
        invariant banned == old(banned) + (excluded - todo - {local})
        decreases |todo|
      {
        var id :| id in todo;
        if id != local {
          banned := banned + {id};
        }
        todo := todo - {id};
      }
    }

    method AddMissing(sentries: seq<Peer>, chosen: set<PeerId>)
      modifies this`trusted
      ensures trusted == old(trusted) + Missing(sentries, chosen, IdSet(Ids(old(trusted))))
    {
      var trustedIds := IdSet(Ids(trusted));
      assert sentries[0..] == sentries;
      for i := 0 to |sentries|
        invariant trusted + Missing(sentries[i..], chosen, trustedIds)
                  == old(trusted) + Missing(sentries, chosen, IdSet(Ids(old(trusted))))
      {
        assert sentries[i..][1..] == sentries[i + 1..];
        if sentries[i].id in chosen && sentries[i].id !in trustedIds {
          var rest := Missing(sentries[i + 1..], chosen, trustedIds + {sentries[i].id});
          assert trusted + ([sentries[i]] + rest) == trusted + [sentries[i]] + rest;
          trustedIds := trustedIds + {sentries[i].id};
          trusted := trusted + [sentries[i]];
        }
      }
    }
  }
}
