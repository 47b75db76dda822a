/** The hardfork schedule of a World Chain spec: canonical names, activation order, and the EIP-2124
    fork identifier computed from the schedule. */
module Hardforks {
  import opened Wrappers

  type Name = string

  datatype Condition =
    | Block(block: nat)
    | TTD(forkBlock: Option<nat>)
    | Timestamp(time: nat)
    | Never

  datatype Fork = Fork(name: Name, condition: Condition)

  type Forks = seq<Fork>

  /** The post-Karst schedule diverges from the OP stack by name, so World Chain keeps its own order. */
  const CANONICAL: seq<Name> :=
    ["Bedrock", "Regolith", "Canyon", "Ecotone", "Fjord", "Granite",
     "Holocene", "Isthmus", "Jovian", "Karst", "Tropo", "Strato"]

  // ---------------------------------------------------------------------------------------------
  // Names
  // ---------------------------------------------------------------------------------------------

  function Lower(s: string): string {
    seq(|s|, i requires 0 <= i < |s| => if 'A' <= s[i] <= 'Z' then s[i] - 'A' + 'a' else s[i])
  }

  /** Interop is dropped; the two World Chain forks are matched without regard to case; every other
      fork keeps its name. */
  function Convert(name: Name): Option<Name> {
    if name in CANONICAL[..10] then Some(name)
    else if name == "Interop" then None
    else if Lower(name) == "tropo" then Some("Tropo")
    else if Lower(name) == "strato" then Some("Strato")
    else Some(name)
  }

  /** `name` is a spelling of a word in any mix of lower and upper case. */
  predicate Spells(name: Name, lower: Name, upper: Name) {
    |name| == |lower| == |upper| && forall i :: 0 <= i < |name| ==> name[i] == lower[i] || name[i] == upper[i]
  }

  lemma LowerSpells(name: Name, lower: Name, upper: Name)
    requires |lower| == |upper|
    requires forall i :: 0 <= i < |lower| ==> 'a' <= lower[i] <= 'z' && upper[i] == lower[i] - 'a' + 'A'
    ensures Lower(name) == lower <==> Spells(name, lower, upper)
  {
    if Lower(name) == lower {
      forall i | 0 <= i < |name| ensures name[i] == lower[i] || name[i] == upper[i] {
        assert Lower(name)[i] == lower[i];
      }
    }
  }

  lemma UpstreamInitial(name: Name)
    requires name in CANONICAL[..10]
    ensures name != "Interop" && name != "" && name[0] != 'T' && name[0] != 't' && name[0] != 'S' && name[0] != 's'
  {
    var i :| 0 <= i < 10 && CANONICAL[i] == name;
    assert CANONICAL[0][0] == 'B' && CANONICAL[1][0] == 'R' && CANONICAL[2][0] == 'C' && CANONICAL[3][0] == 'E';
    assert CANONICAL[4][0] == 'F' && CANONICAL[5][0] == 'G' && CANONICAL[6][0] == 'H' && CANONICAL[7][0] == 'I';
    assert CANONICAL[8][0] == 'J' && CANONICAL[9][0] == 'K' && CANONICAL[7][1] != "Interop"[1];
  }

  /** Only `Interop` is dropped, every spelling of the two World Chain forks gets its canonical name, and every
      other name stays as it is. */
  lemma ConvertMeans(name: Name)
    ensures Convert(name).None? <==> name == "Interop"
    ensures Spells(name, "tropo", "TROPO") ==> Convert(name) == Some("Tropo")
    ensures Spells(name, "strato", "STRATO") ==> Convert(name) == Some("Strato")
    ensures !Spells(name, "tropo", "TROPO") && !Spells(name, "strato", "STRATO") && name != "Interop" ==> Convert(name) == Some(name)
  {
    LowerSpells(name, "tropo", "TROPO");
    LowerSpells(name, "strato", "STRATO");
    if name in CANONICAL[..10] { UpstreamInitial(name); }
  }

  lemma ConvertIsIdempotent(name: Name)
    ensures Convert(name).Some? ==> Convert(Convert(name).value) == Convert(name)
  {}

  // ---------------------------------------------------------------------------------------------
  // Fork lists
  // ---------------------------------------------------------------------------------------------

  predicate UniqueNames(forks: Forks) {
    forall i, j :: 0 <= i < j < |forks| ==> forks[i].name != forks[j].name
  }

  predicate CanonicalNames(forks: Forks) {
    forall i :: 0 <= i < |forks| ==> Convert(forks[i].name) == Some(forks[i].name)
  }

  predicate WellFormed(forks: Forks) {
    UniqueNames(forks) && CanonicalNames(forks)
  }

  /** The position of the first fork with this name, or the length. */
  function Position(forks: Forks, name: Name): (k: nat)
    ensures k <= |forks|
    ensures k < |forks| ==> forks[k].name == name
    ensures forall i :: 0 <= i < k ==> forks[i].name != name
  {
    if forks == [] || forks[0].name == name then 0 else 1 + Position(forks[1..], name)
  }

  function Without(forks: Forks, k: nat): Forks
    requires k < |forks|
  {
    forks[..k] + forks[k + 1..]
  }

  /** The condition a name maps to: the schedule as a function, `Never` for a name not listed. */
  function Lookup(forks: Forks, name: Name): Condition {
    var k := Position(forks, name);
    if k < |forks| then forks[k].condition else Never
  }

  /** Inserting replaces the condition in place, or appends the fork. */
  function Insert(forks: Forks, fork: Fork): Forks {
    var k := Position(forks, fork.name);
    if k < |forks| then forks[k := fork] else forks + [fork]
  }

  // ---------------------------------------------------------------------------------------------
  // Activation order
  // ---------------------------------------------------------------------------------------------

  const U64_MAX := 0xFFFF_FFFF_FFFF_FFFF

  datatype Key = Key(class_: nat, value: nat)

  function ActivationOrder(c: Condition): Key {
    match c
    case Block(b) => Key(0, b)
    case TTD(Some(b)) => Key(0, b)
    case TTD(None) => Key(1, 0)
    case Timestamp(t) => Key(2, t)
    case Never => Key(3, U64_MAX)
  }

  predicate AtMost(x: Key, y: Key) {
    x.class_ < y.class_ || (x.class_ == y.class_ && x.value <= y.value)
  }

  function KeyOf(f: Fork): Key {
    ActivationOrder(f.condition)
  }

  predicate Sorted(forks: Forks) {
    forall i, j :: 0 <= i < j < |forks| ==> AtMost(KeyOf(forks[i]), KeyOf(forks[j]))
  }

  /** `c` comes no later than `d`: block activations by number, then a total difficulty without a known block,
      then timestamps by time, then forks that never activate. */
  predicate NoLater(c: Condition, d: Condition) {
    match d
    case Never => true
    case Timestamp(t) => !c.Never? && (c.Timestamp? ==> c.time <= t)
    case TTD(None) => !c.Never? && !c.Timestamp?
    case TTD(Some(b)) => (c.Block? && c.block <= b) || (c.TTD? && c.forkBlock.Some? && c.forkBlock.value <= b)
    case Block(b) => (c.Block? && c.block <= b) || (c.TTD? && c.forkBlock.Some? && c.forkBlock.value <= b)
  }

  lemma AtMostMeans(c: Condition, d: Condition)
    ensures AtMost(ActivationOrder(c), ActivationOrder(d)) <==> NoLater(c, d)
  {}

  /** A list is sorted exactly if no fork comes after a later one. */
  lemma SortedMeans(forks: Forks)
    ensures Sorted(forks) <==> forall i, j :: 0 <= i < j < |forks| ==> NoLater(forks[i].condition, forks[j].condition)
  {
    forall i, j | 0 <= i < j < |forks|
      ensures AtMost(KeyOf(forks[i]), KeyOf(forks[j])) <==> NoLater(forks[i].condition, forks[j].condition)
    {
      AtMostMeans(forks[i].condition, forks[j].condition);
    }
  }

  function WithKey(forks: Forks, k: Key): Forks {
    if forks == [] then []
    else (if KeyOf(forks[0]) == k then [forks[0]] else []) + WithKey(forks[1..], k)
  }

  /** Puts `f` before everything with the same or a later key. */
  function Place(f: Fork, sorted: Forks): Forks {
    if sorted == [] || AtMost(KeyOf(f), KeyOf(sorted[0])) then [f] + sorted
    else [sorted[0]] + Place(f, sorted[1..])
  }

  function StableSort(forks: Forks): Forks {
    if forks == [] then [] else Place(forks[0], StableSort(forks[1..]))
  }

  lemma {:induction false} PlacePermutes(f: Fork, sorted: Forks)
    ensures multiset(Place(f, sorted)) == multiset{f} + multiset(sorted)
  {
    if !(sorted == [] || AtMost(KeyOf(f), KeyOf(sorted[0]))) {
      PlacePermutes(f, sorted[1..]);
      assert sorted == [sorted[0]] + sorted[1..];
    }
  }

  predicate AllAtLeast(k: Key, forks: Forks) {
    forall i :: 0 <= i < |forks| ==> AtMost(k, KeyOf(forks[i]))
  }

  lemma SortedCons(f: Fork, rest: Forks)
    requires Sorted(rest) && AllAtLeast(KeyOf(f), rest)
    ensures Sorted([f] + rest)
  {}

  lemma {:induction false} PlaceSorts(f: Fork, sorted: Forks, bound: Key)
    requires Sorted(sorted) && AllAtLeast(bound, sorted) && AtMost(bound, KeyOf(f))
    ensures Sorted(Place(f, sorted)) && AllAtLeast(bound, Place(f, sorted))
  {
    if sorted == [] || AtMost(KeyOf(f), KeyOf(sorted[0])) {
      assert AllAtLeast(KeyOf(f), sorted);
      SortedCons(f, sorted);
    } else {
      assert AllAtLeast(KeyOf(sorted[0]), sorted[1..]);
      PlaceSorts(f, sorted[1..], KeyOf(sorted[0]));
      SortedCons(sorted[0], Place(f, sorted[1..]));
    }
  }

  lemma {:induction false} PlaceIsStable(f: Fork, sorted: Forks, k: Key)
    ensures WithKey(Place(f, sorted), k) == (if KeyOf(f) == k then [f] else []) + WithKey(sorted, k)
  {
    if sorted == [] || AtMost(KeyOf(f), KeyOf(sorted[0])) {
      assert ([f] + sorted)[1..] == sorted;
    } else {
      PlaceIsStable(f, sorted[1..], k);
      assert Place(f, sorted)[1..] == Place(f, sorted[1..]);
      assert KeyOf(f) != KeyOf(sorted[0]);
    }
  }

  lemma {:induction false} StableSortWithKey(forks: Forks, k: Key)
    ensures WithKey(StableSort(forks), k) == WithKey(forks, k)
  {
    if forks != [] {
      StableSortWithKey(forks[1..], k);
      PlaceIsStable(forks[0], StableSort(forks[1..]), k);
    }
  }

  /** The sort is a permutation in activation order that keeps forks of equal activation in place. */
  lemma {:induction false} StableSortIsStable(forks: Forks)
    ensures Sorted(StableSort(forks))
    ensures multiset(StableSort(forks)) == multiset(forks)
    ensures forall k :: WithKey(StableSort(forks), k) == WithKey(forks, k)
  {
    if forks != [] {
      StableSortIsStable(forks[1..]);
      PlaceSorts(forks[0], StableSort(forks[1..]), Key(0, 0));
      PlacePermutes(forks[0], StableSort(forks[1..]));
      assert forks == [forks[0]] + forks[1..];
    }
    forall k ensures WithKey(StableSort(forks), k) == WithKey(forks, k) {
      StableSortWithKey(forks, k);
    }
  }

  /** World Chain forks in canonical order, taken out of the configured list one by one. */
  function Selected(configured: Forks, order: seq<Name>): (Forks, Forks) {
    if order == [] then ([], configured)
    else
      var k := Position(configured, order[0]);
      if k < |configured| then
        var (picked, rest) := Selected(Without(configured, k), order[1..]);
        ([configured[k]] + picked, rest)
      else Selected(configured, order[1..])
  }

  function OrderBy(configured: Forks, order: seq<Name>): Forks {
    var (picked, rest) := Selected(configured, order);
    StableSort(picked + rest)
  }

  function Order(configured: Forks): Forks {
    OrderBy(configured, CANONICAL)
  }

  lemma WithoutIsRest(forks: Forks, k: nat)
    requires k < |forks|
    ensures multiset(forks) == multiset{forks[k]} + multiset(Without(forks, k))
  {
    assert forks == forks[..k] + [forks[k]] + forks[k + 1..];
  }

  lemma {:induction false} SelectedIsPermutation(configured: Forks, order: seq<Name>)
    ensures var (picked, rest) := Selected(configured, order);
            multiset(picked) + multiset(rest) == multiset(configured)
    decreases |order|
  {
    if order != [] {
      var k := Position(configured, order[0]);
      if k < |configured| {
        SelectedIsPermutation(Without(configured, k), order[1..]);
        WithoutIsRest(configured, k);
      } else {
        SelectedIsPermutation(configured, order[1..]);
      }
    }
  }

  /** The forks named in `order`, in that order: each at most once. */
  function Picked(configured: Forks, order: seq<Name>): Forks {
    if order == [] then []
    else
      var k := Position(configured, order[0]);
      (if k < |configured| then [configured[k]] else []) + Picked(configured, order[1..])
  }

  /** The forks not named in `order`, in the order they were configured. */
  function Others(configured: Forks, order: seq<Name>): Forks {
    if configured == [] then []
    else (if configured[0].name in order then [] else [configured[0]]) + Others(configured[1..], order)
  }

  predicate DistinctOrder(order: seq<Name>) {
    forall i, j :: 0 <= i < j < |order| ==> order[i] != order[j]
  }

  lemma {:induction false} OthersWithout(configured: Forks, k: nat, order: seq<Name>)
    requires UniqueNames(configured) && k < |configured|
    ensures Others(Without(configured, k), order) == Others(configured, [configured[k].name] + order)
  {
    var removed := Without(configured, k);
    if k == 0 {
      assert removed == configured[1..];
      OthersSkip(configured[1..], configured[0].name, order);
    } else {
      assert configured[1..][k - 1] == configured[k];
      assert removed[1..] == Without(configured[1..], k - 1);
      OthersWithout(configured[1..], k - 1, order);
    }
  }

  lemma {:induction false} OthersSkip(configured: Forks, name: Name, order: seq<Name>)
    requires forall i :: 0 <= i < |configured| ==> configured[i].name != name
    ensures Others(configured, order) == Others(configured, [name] + order)
  {
    if configured != [] { OthersSkip(configured[1..], name, order); }
  }

  lemma PositionWithout(forks: Forks, k: nat, name: Name)
    requires UniqueNames(forks) && k < |forks| && name != forks[k].name
    ensures var p, q := Position(forks, name), Position(Without(forks, k), name);
            (p < |forks| <==> q < |Without(forks, k)|) && (p < |forks| ==> forks[p] == Without(forks, k)[q])
  {
    var p, rest := Position(forks, name), Without(forks, k);
    if p < |forks| {
      var at := if p < k then p else p - 1;
      assert rest[at] == forks[p];
      assert Position(rest, name) <= at;
    }
    var q := Position(rest, name);
    if q < |rest| {
      assert rest[q] == forks[if q < k then q else q + 1];
    }
  }

  lemma {:induction false} PickedWithout(configured: Forks, k: nat, order: seq<Name>)
    requires UniqueNames(configured) && k < |configured| && configured[k].name !in order
    ensures Picked(Without(configured, k), order) == Picked(configured, order)
  {
    if order != [] {
      PositionWithout(configured, k, order[0]);
      PickedWithout(configured, k, order[1..]);
    }
  }

  /** The select-and-remove loop splits the list into the named forks in canonical order and the rest in
      configured order. */
  lemma {:induction false} SelectedSplits(configured: Forks, order: seq<Name>)
    requires UniqueNames(configured) && DistinctOrder(order)
    ensures Selected(configured, order) == (Picked(configured, order), Others(configured, order))
    decreases |order|
  {
    if order == [] {
      OthersNone(configured);
    } else {
      var k := Position(configured, order[0]);
      assert order[0] !in order[1..];
      assert order == [order[0]] + order[1..];
      if k < |configured| {
        SelectedSplits(Without(configured, k), order[1..]);
        PickedWithout(configured, k, order[1..]);
        OthersWithout(configured, k, order[1..]);
      } else {
        SelectedSplits(configured, order[1..]);
        OthersSkip(configured, order[0], order[1..]);
        assert Picked(configured, order) == Picked(configured, order[1..]);
      }
    }
  }

  lemma {:induction false} OthersNone(configured: Forks)
    ensures Others(configured, []) == configured
  {
    if configured != [] { OthersNone(configured[1..]); }
  }

  lemma {:induction false} WithKeyAppend(f: Forks, g: Forks, k: Key)
    ensures WithKey(f + g, k) == WithKey(f, k) + WithKey(g, k)
  {
    if f == [] {
      assert f + g == g;
    } else {
      assert (f + g)[1..] == f[1..] + g;
      WithKeyAppend(f[1..], g, k);
    }
  }

  lemma OrderByIsCanonical(configured: Forks, order: seq<Name>)
    requires UniqueNames(configured) && DistinctOrder(order)
    ensures Sorted(OrderBy(configured, order))
    ensures multiset(OrderBy(configured, order)) == multiset(configured)
    ensures forall k :: WithKey(OrderBy(configured, order), k)
                        == WithKey(Picked(configured, order), k) + WithKey(Others(configured, order), k)
  {
    var (picked, rest) := Selected(configured, order);
    SelectedIsPermutation(configured, order);
    SelectedSplits(configured, order);
    StableSortIsStable(picked + rest);
    forall k ensures WithKey(OrderBy(configured, order), k) == WithKey(picked, k) + WithKey(rest, k) {
      WithKeyAppend(picked, rest, k);
    }
  }

  lemma CanonicalIsDistinct()
    ensures DistinctOrder(CANONICAL)
  {}

  /** The ordered schedule is a permutation of the configured one, sorted by activation; forks that
      activate together keep the canonical order, World Chain forks before all others. */
  lemma OrderIsCanonical(configured: Forks)
    requires UniqueNames(configured)
    ensures Sorted(Order(configured))
    ensures multiset(Order(configured)) == multiset(configured)
    ensures forall k :: WithKey(Order(configured), k)
                        == WithKey(Picked(configured, CANONICAL), k) + WithKey(Others(configured, CANONICAL), k)
  {
    CanonicalIsDistinct();
    OrderByIsCanonical(configured, CANONICAL);
  }

  /** The order the forks were released in; everything else comes last. */
  function Release(name: Name): (r: nat)
    ensures r <= 12
  {
    if name == "Bedrock" then 0 else if name == "Regolith" then 1 else if name == "Canyon" then 2
    else if name == "Ecotone" then 3 else if name == "Fjord" then 4 else if name == "Granite" then 5
    else if name == "Holocene" then 6 else if name == "Isthmus" then 7 else if name == "Jovian" then 8
    else if name == "Karst" then 9 else if name == "Tropo" then 10 else if name == "Strato" then 11 else 12
  }

  predicate InOrder(rank: Name -> nat, forks: Forks) {
    forall i, j :: 0 <= i < j < |forks| ==> rank(forks[i].name) <= rank(forks[j].name)
  }

  predicate TiesInOrder(rank: Name -> nat, forks: Forks) {
    forall i, j :: 0 <= i < j < |forks| && KeyOf(forks[i]) == KeyOf(forks[j]) ==> rank(forks[i].name) <= rank(forks[j].name)
  }

  lemma CanonicalIsReleaseOrder(k: nat)
    requires k < |CANONICAL|
    ensures Release(CANONICAL[k]) == k
  {}

  lemma ReleasedIsCanonical(name: Name)
    requires name !in CANONICAL
    ensures Release(name) == 12
  {
    assert CANONICAL[0] == "Bedrock" && CANONICAL[1] == "Regolith" && CANONICAL[2] == "Canyon" && CANONICAL[3] == "Ecotone";
    assert CANONICAL[4] == "Fjord" && CANONICAL[5] == "Granite" && CANONICAL[6] == "Holocene" && CANONICAL[7] == "Isthmus";
    assert CANONICAL[8] == "Jovian" && CANONICAL[9] == "Karst" && CANONICAL[10] == "Tropo" && CANONICAL[11] == "Strato";
  }

  lemma {:induction false} PickedInOrder(rank: Name -> nat, configured: Forks, order: seq<Name>, k: nat)
    requires forall i :: 0 <= i < |order| ==> rank(order[i]) == k + i
    ensures InOrder(rank, Picked(configured, order))
    ensures forall f :: f in Picked(configured, order) ==> k <= rank(f.name) < k + |order|
  {
    if order != [] {
      PickedInOrder(rank, configured, order[1..], k + 1);
    }
  }

  lemma {:induction false} OthersReleaseLast(configured: Forks)
    ensures forall f :: f in Others(configured, CANONICAL) ==> Release(f.name) == 12
  {
    if configured != [] {
      OthersReleaseLast(configured[1..]);
      if configured[0].name !in CANONICAL { ReleasedIsCanonical(configured[0].name); }
    }
  }

  lemma {:induction false} PlaceContains(f: Fork, sorted: Forks, g: Fork)
    ensures g in Place(f, sorted) <==> g == f || g in sorted
  {
    PlacePermutes(f, sorted);
    assert g in Place(f, sorted) <==> g in multiset(Place(f, sorted));
  }

  lemma {:induction false} PlaceKeepsTies(rank: Name -> nat, f: Fork, sorted: Forks)
    requires TiesInOrder(rank, sorted) && forall g :: g in sorted ==> rank(f.name) <= rank(g.name)
    ensures TiesInOrder(rank, Place(f, sorted))
  {
    if !(sorted == [] || AtMost(KeyOf(f), KeyOf(sorted[0]))) {
      PlaceKeepsTies(rank, f, sorted[1..]);
      var rest := Place(f, sorted[1..]);
      forall j | 0 <= j < |rest| && KeyOf(sorted[0]) == KeyOf(rest[j]) ensures rank(sorted[0].name) <= rank(rest[j].name) {
        PlaceContains(f, sorted[1..], rest[j]);
      }
    }
  }

  lemma {:induction false} StableSortKeepsTies(rank: Name -> nat, forks: Forks)
    requires InOrder(rank, forks)
    ensures TiesInOrder(rank, StableSort(forks))
  {
    if forks != [] {
      var rest := forks[1..];
      StableSortKeepsTies(rank, rest);
      StableSortIsStable(rest);
      forall g | g in StableSort(rest) ensures rank(forks[0].name) <= rank(g.name) {
        assert g in multiset(StableSort(rest));
        assert g in rest;
      }
      PlaceKeepsTies(rank, forks[0], StableSort(rest));
    }
  }

  /** Forks that activate together are listed in the order they were released, any other fork after them. */
  lemma OrderBreaksTiesByRelease(configured: Forks)
    requires UniqueNames(configured)
    ensures TiesInOrder(Release, Order(configured))
  {
    CanonicalIsDistinct();
    SelectedSplits(configured, CANONICAL);
    forall k | 0 <= k < |CANONICAL| ensures Release(CANONICAL[k]) == k { CanonicalIsReleaseOrder(k); }
    PickedInOrder(Release, configured, CANONICAL, 0);
    OthersReleaseLast(configured);
    var picked, others := Picked(configured, CANONICAL), Others(configured, CANONICAL);
    assert forall j :: 0 <= j < |others| ==> others[j] in others;
    assert InOrder(Release, picked + others);
    StableSortKeepsTies(Release, picked + others);
  }

  // ---------------------------------------------------------------------------------------------
  // Setting forks
  // ---------------------------------------------------------------------------------------------

  function Converted(forks: Forks): Forks {
    if forks == [] then []
    else
      var c := Convert(forks[0].name);
      (if c.Some? then [Fork(c.value, forks[0].condition)] else []) + Converted(forks[1..])
  }

  function SetFork(forks: Forks, name: Name, condition: Condition): Forks {
    var c := Convert(name);
    if c.None? then forks else Order(Converted(Insert(forks, Fork(c.value, condition))))
  }

  lemma {:induction false} ConvertedIsSame(forks: Forks)
    requires CanonicalNames(forks)
    ensures Converted(forks) == forks
  {
    if forks != [] { ConvertedIsSame(forks[1..]); }
  }

  lemma PermutationKeepsWellFormed(f: Forks, g: Forks)
    requires WellFormed(f) && multiset(f) == multiset(g)
    ensures WellFormed(g)
    ensures forall name :: Lookup(f, name) == Lookup(g, name)
  {
    forall i, j | 0 <= i < j < |g| ensures g[i].name != g[j].name {
      assert g[i] in multiset(g) && g[j] in multiset(g);
      assert g[i] in f && g[j] in f;
      UniqueCount(f, g[i]);
      if g[i] == g[j] { RepeatCount(g, i, j); }
    }
    forall i | 0 <= i < |g| ensures Convert(g[i].name) == Some(g[i].name) {
      assert g[i] in multiset(g);
      assert g[i] in f;
    }
    forall name ensures Lookup(f, name) == Lookup(g, name) {
      var p, q := Position(f, name), Position(g, name);
      if p < |f| {
        assert f[p] in multiset(f);
        assert f[p] in g;
      }
      if q < |g| {
        assert g[q] in multiset(g);
        assert g[q] in f;
      }
    }
  }

  lemma {:induction false} UniqueCount(f: Forks, x: Fork)
    requires UniqueNames(f)
    ensures multiset(f)[x] <= 1
  {
    if f != [] {
      UniqueCount(f[1..], x);
      assert f == [f[0]] + f[1..];
      if x == f[0] { assert x !in f[1..]; }
    }
  }

  lemma RepeatCount(g: Forks, i: nat, j: nat)
    requires i < j < |g| && g[i] == g[j]
    ensures multiset(g)[g[i]] >= 2
  {
    assert g == g[..j] + g[j..];
    assert g[..j][i] in g[..j] && g[j..][0] in g[j..];
  }

  lemma InsertIsUpdate(forks: Forks, fork: Fork)
    requires WellFormed(forks) && Convert(fork.name) == Some(fork.name)
    ensures WellFormed(Insert(forks, fork))
    ensures forall name :: Lookup(Insert(forks, fork), name) == if name == fork.name then fork.condition else Lookup(forks, name)
  {
    var after, k := Insert(forks, fork), Position(forks, fork.name);
    assert after[k] == fork;
    assert forall i :: 0 <= i < |after| && i != k ==> after[i] == forks[i];
    forall name ensures Lookup(after, name) == if name == fork.name then fork.condition else Lookup(forks, name) {
      var p, q := Position(forks, name), Position(after, name);
      if name == fork.name {
        assert q == k;
      } else {
        assert q < |after| ==> after[q].name == forks[q].name;
        if p < |forks| { assert after[p] == forks[p]; }
      }
    }
  }

  /** Setting a fork updates the schedule at that fork only and always leaves the list in activation
      order, wherever the fork came from. */
  lemma SetForkUpdates(forks: Forks, name: Name, condition: Condition)
    requires WellFormed(forks) && Convert(name).Some?
    ensures var after := SetFork(forks, name, condition);
            && WellFormed(after) && Sorted(after)
            && forall n :: Lookup(after, n) == if n == Convert(name).value then condition else Lookup(forks, n)
  {
    var fork := Fork(Convert(name).value, condition);
    ConvertIsIdempotent(name);
    InsertIsUpdate(forks, fork);
    var inserted := Insert(forks, fork);
    ConvertedIsSame(inserted);
    OrderIsCanonical(inserted);
    PermutationKeepsWellFormed(inserted, Order(inserted));
  }

  datatype Override = Override(name: Name, condition: Condition)

  function SetForks(forks: Forks, overrides: seq<Override>): Forks
    decreases |overrides|
  {
    if overrides == [] then forks
    else SetForks(SetFork(forks, overrides[0].name, overrides[0].condition), overrides[1..])
  }

  function Updated(schedule: Name -> Condition, o: Override): Name -> Condition {
    n => if Convert(o.name) == Some(n) then o.condition else schedule(n)
  }

  /** The schedule the overrides describe, with no list involved. */
  function Schedule(initial: Name -> Condition, overrides: seq<Override>): Name -> Condition
    decreases |overrides|
  {
    if overrides == [] then initial else Schedule(Updated(initial, overrides[0]), overrides[1..])
  }

  /** The list is in activation order, or some override takes effect and puts it there. */
  predicate OrderedAfter(forks: Forks, overrides: seq<Override>) {
    Sorted(forks) || exists i :: 0 <= i < |overrides| && Convert(overrides[i].name).Some?
  }

  lemma {:induction false} SetForksUpdate(forks: Forks, initial: Name -> Condition, overrides: seq<Override>)
    requires WellFormed(forks) && OrderedAfter(forks, overrides) && forall n :: Lookup(forks, n) == initial(n)
    ensures var after := SetForks(forks, overrides);
            WellFormed(after) && Sorted(after) && forall n :: Lookup(after, n) == Schedule(initial, overrides)(n)
    decreases |overrides|
  {
    if overrides != [] {
      var o := overrides[0];
      if Convert(o.name).Some? {
        SetForkUpdates(forks, o.name, o.condition);
      } else if !Sorted(forks) {
        var i :| 0 <= i < |overrides| && Convert(overrides[i].name).Some?;
        assert overrides[1..][i - 1] == overrides[i];
      }
      SetForksUpdate(SetFork(forks, o.name, o.condition), Updated(initial, o), overrides[1..]);
    }
  }

  // ---------------------------------------------------------------------------------------------
  // Fork identifier
  // ---------------------------------------------------------------------------------------------

  /** The fork hash as the sequence of its inputs: the genesis hash and the activations folded in. */
  datatype ForkHash = Seed(genesisHash: nat) | Add(hash: ForkHash, activation: nat)

  datatype ForkId = ForkId(hash: ForkHash, next: nat)

  datatype Head = Head(number: nat, timestamp: nat)

  /** Folding stops at the first activation the head has not reached. */
  datatype Folded = Stopped(id: ForkId) | Passed(hash: ForkHash, applied: nat)

  function Fold(activations: seq<nat>, head: nat, hash: ForkHash, applied: nat): Folded {
    if activations == [] then Passed(hash, applied)
    else if head < activations[0] then Stopped(ForkId(hash, activations[0]))
    else if activations[0] == applied then Fold(activations[1..], head, hash, applied)
    else Fold(activations[1..], head, Add(hash, activations[0]), activations[0])
  }

  function Blocks(forks: Forks): seq<nat> {
    if forks == [] then []
    else
      (match forks[0].condition
       case Block(b) => [b]
       case TTD(Some(b)) => [b]
       case _ => []) + Blocks(forks[1..])
  }

  function Times(forks: Forks, genesisTime: nat): seq<nat> {
    if forks == [] then []
    else
      (if forks[0].condition.Timestamp? && forks[0].condition.time > genesisTime then [forks[0].condition.time] else [])
      + Times(forks[1..], genesisTime)
  }

  function FoldAll(blocks: seq<nat>, times: seq<nat>, genesisHash: nat, head: Head): ForkId {
    match Fold(blocks, head.number, Seed(genesisHash), 0)
    case Stopped(id) => id
    case Passed(hash, applied) =>
      match Fold(times, head.timestamp, hash, applied)
      case Stopped(id) => id
      case Passed(h, _) => ForkId(h, 0)
  }

  /** The fork identifier of a schedule at a head, in list order. */
  function ForkIdAt(forks: Forks, genesisTime: nat, genesisHash: nat, head: Head): ForkId {
    FoldAll(Blocks(forks), Times(forks, genesisTime), genesisHash, head)
  }

  function Distinct(s: seq<nat>): seq<nat> {
    if |s| < 2 then s
    else if s[0] == s[1] then Distinct(s[1..])
    else [s[0]] + Distinct(s[1..])
  }

  predicate Ascending(s: seq<nat>) {
    forall i, j :: 0 <= i < j < |s| ==> s[i] <= s[j]
  }

  predicate StrictlyAscending(s: seq<nat>) {
    forall i, j :: 0 <= i < j < |s| ==> s[i] < s[j]
  }

  lemma {:induction false} DistinctIsStrict(s: seq<nat>)
    requires Ascending(s)
    ensures StrictlyAscending(Distinct(s))
    ensures forall x :: x in Distinct(s) <==> x in s
  {
    if |s| >= 2 {
      DistinctIsStrict(s[1..]);
      assert s == [s[0]] + s[1..];
      var rest := Distinct(s[1..]);
      if s[0] != s[1] {
        forall j | 0 <= j < |rest| ensures s[0] < rest[j] { assert rest[j] in s[1..]; }
      }
    }
  }

  lemma {:induction false} StrictListsAgree(s: seq<nat>, t: seq<nat>)
    requires StrictlyAscending(s) && StrictlyAscending(t)
    requires forall x :: x in s <==> x in t
    ensures s == t
  {
    assert s != [] ==> s[0] in s;
    assert t != [] ==> t[0] in t;
    if s != [] {
      assert s[0] in t;
      assert t[0] in s;
      assert s == [s[0]] + s[1..] && t == [t[0]] + t[1..];
      assert s[0] == t[0];
      forall x ensures x in s[1..] <==> x in t[1..] {
        assert x in s[1..] <==> x in s && x != s[0];
        assert x in t[1..] <==> x in t && x != t[0];
      }
      StrictListsAgree(s[1..], t[1..]);
    }
  }

  /** Skipping only adjacent repeats is enough when equal activations are adjacent. */
  lemma {:induction false} FoldIgnoresRepeats(s: seq<nat>, head: nat, hash: ForkHash, applied: nat)
    ensures Fold(s, head, hash, applied) == Fold(Distinct(s), head, hash, applied)
    decreases |s|
  {
    if |s| >= 2 {
      if s[0] == s[1] {
        FoldIgnoresRepeats(s[1..], head, hash, applied);
      } else if s[0] == applied {
        FoldIgnoresRepeats(s[1..], head, hash, applied);
      } else {
        FoldIgnoresRepeats(s[1..], head, Add(hash, s[0]), s[0]);
      }
    }
  }

  /** On ordered activations the fork identifier is the EIP-2124 fold over the distinct activations. */
  lemma ForkIdDependsOnSets(blocks: seq<nat>, times: seq<nat>, blocks': seq<nat>, times': seq<nat>, genesisHash: nat, head: Head)
    requires Ascending(blocks) && Ascending(times) && Ascending(blocks') && Ascending(times')
    requires forall x :: x in blocks <==> x in blocks'
    requires forall x :: x in times <==> x in times'
    ensures FoldAll(blocks, times, genesisHash, head) == FoldAll(blocks', times', genesisHash, head)
            == FoldAll(Distinct(blocks), Distinct(times), genesisHash, head)
  {
    DistinctIsStrict(blocks);
    DistinctIsStrict(blocks');
    DistinctIsStrict(times);
    DistinctIsStrict(times');
    StrictListsAgree(Distinct(blocks), Distinct(blocks'));
    StrictListsAgree(Distinct(times), Distinct(times'));
    var seed := Seed(genesisHash);
    FoldIgnoresRepeats(blocks, head.number, seed, 0);
    FoldIgnoresRepeats(blocks', head.number, seed, 0);
    var first := Fold(blocks, head.number, seed, 0);
    if first.Passed? {
      FoldIgnoresRepeats(times, head.timestamp, first.hash, first.applied);
      FoldIgnoresRepeats(times', head.timestamp, first.hash, first.applied);
    }
  }

  predicate ActivatesAtBlock(c: Condition, b: nat) {
    c == Block(b) || c == TTD(Some(b))
  }

  ghost predicate BlockListed(forks: Forks, b: nat) {
    exists i :: 0 <= i < |forks| && ActivatesAtBlock(forks[i].condition, b)
  }

  ghost predicate TimeListed(forks: Forks, t: nat) {
    exists i :: 0 <= i < |forks| && forks[i].condition == Timestamp(t)
  }

  lemma ListedCons(forks: Forks, n: nat)
    requires forks != []
    ensures BlockListed(forks, n) <==> ActivatesAtBlock(forks[0].condition, n) || BlockListed(forks[1..], n)
    ensures TimeListed(forks, n) <==> forks[0].condition == Timestamp(n) || TimeListed(forks[1..], n)
  {}

  lemma {:induction false} BlocksOf(forks: Forks, b: nat)
    ensures b in Blocks(forks) <==> BlockListed(forks, b)
  {
    if forks != [] {
      BlocksOf(forks[1..], b);
      ListedCons(forks, b);
    }
  }

  lemma {:induction false} TimesOf(forks: Forks, genesisTime: nat, t: nat)
    ensures t in Times(forks, genesisTime) <==> t > genesisTime && TimeListed(forks, t)
  {
    if forks != [] {
      TimesOf(forks[1..], genesisTime, t);
      ListedCons(forks, t);
    }
  }

  lemma AscendingCons(x: nat, rest: seq<nat>)
    requires Ascending(rest) && forall j :: 0 <= j < |rest| ==> x <= rest[j]
    ensures Ascending([x] + rest)
  {}

  lemma BlocksFollow(forks: Forks, b: nat)
    requires forks != [] && Sorted(forks) && ActivatesAtBlock(forks[0].condition, b)
    ensures forall j :: 0 <= j < |Blocks(forks[1..])| ==> b <= Blocks(forks[1..])[j]
  {
    var rest := forks[1..];
    var blocks := Blocks(rest);
    forall j | 0 <= j < |blocks| ensures b <= blocks[j] {
      BlocksOf(rest, blocks[j]);
      var i :| 0 <= i < |rest| && ActivatesAtBlock(rest[i].condition, blocks[j]);
      assert AtMost(KeyOf(forks[0]), KeyOf(forks[i + 1]));
    }
  }

  lemma {:induction false} BlocksAscend(forks: Forks)
    requires Sorted(forks)
    ensures Ascending(Blocks(forks))
  {
    if forks != [] {
      BlocksAscend(forks[1..]);
      match forks[0].condition
      case Block(b) =>
        BlocksFollow(forks, b);
        AscendingCons(b, Blocks(forks[1..]));
      case TTD(Some(b)) =>
        BlocksFollow(forks, b);
        AscendingCons(b, Blocks(forks[1..]));
      case _ =>
        assert Blocks(forks) == Blocks(forks[1..]);
    }
  }

  lemma {:induction false} TimesAscend(forks: Forks, genesisTime: nat)
    requires Sorted(forks)
    ensures Ascending(Times(forks, genesisTime))
  {
    if forks != [] {
      var rest := forks[1..];
      TimesAscend(rest, genesisTime);
      var times := Times(rest, genesisTime);
      if forks[0].condition.Timestamp? && forks[0].condition.time > genesisTime {
        forall j | 0 <= j < |times| ensures forks[0].condition.time <= times[j] {
          TimesOf(rest, genesisTime, times[j]);
          var i :| 0 <= i < |rest| && rest[i].condition == Timestamp(times[j]);
          assert AtMost(KeyOf(forks[0]), KeyOf(forks[i + 1]));
        }
        AscendingCons(forks[0].condition.time, times);
      } else {
        assert Times(forks, genesisTime) == times;
      }
    }
  }

  lemma ActivationsAscend(forks: Forks, genesisTime: nat)
    requires Sorted(forks)
    ensures Ascending(Blocks(forks)) && Ascending(Times(forks, genesisTime))
  {
    BlocksAscend(forks);
    TimesAscend(forks, genesisTime);
  }

  lemma SameActivations(f: Forks, g: Forks, genesisTime: nat)
    requires UniqueNames(f) && UniqueNames(g) && forall n :: Lookup(f, n) == Lookup(g, n)
    ensures forall b :: b in Blocks(f) <==> b in Blocks(g)
    ensures forall t :: t in Times(f, genesisTime) <==> t in Times(g, genesisTime)
  {
    forall n: nat ensures n in Blocks(f) <==> n in Blocks(g) ensures n in Times(f, genesisTime) <==> n in Times(g, genesisTime) {
      SameListed(f, g, n);
      SameListed(g, f, n);
      BlocksOf(f, n);
      BlocksOf(g, n);
      TimesOf(f, genesisTime, n);
      TimesOf(g, genesisTime, n);
    }
  }

  lemma SameListed(f: Forks, g: Forks, n: nat)
    requires UniqueNames(f) && forall name :: Lookup(f, name) == Lookup(g, name)
    ensures BlockListed(f, n) ==> BlockListed(g, n)
    ensures TimeListed(f, n) ==> TimeListed(g, n)
  {
    SameConditions(f, g);
    if BlockListed(f, n) {
      var i :| 0 <= i < |f| && ActivatesAtBlock(f[i].condition, n);
      var j :| 0 <= j < |g| && g[j].condition == f[i].condition;
    }
    if TimeListed(f, n) {
      var i :| 0 <= i < |f| && f[i].condition == Timestamp(n);
      var j :| 0 <= j < |g| && g[j].condition == f[i].condition;
    }
  }

  lemma SameConditions(f: Forks, g: Forks)
    requires UniqueNames(f) && forall n :: Lookup(f, n) == Lookup(g, n)
    ensures forall i :: 0 <= i < |f| && !f[i].condition.Never? ==> exists j :: 0 <= j < |g| && g[j].condition == f[i].condition
  {
    forall i | 0 <= i < |f| && !f[i].condition.Never? ensures exists j :: 0 <= j < |g| && g[j].condition == f[i].condition {
      var n := f[i].name;
      assert Position(f, n) == i;
      assert Lookup(f, n) == Lookup(g, n);
      assert g[Position(g, n)].condition == f[i].condition;
    }
  }

  /** Two ordered specs with the same schedule have the same fork identifier at every head, however
      their forks were configured. */
  lemma SameScheduleSameForkId(f: Forks, g: Forks, genesisTime: nat, genesisHash: nat, head: Head)
    requires UniqueNames(f) && UniqueNames(g) && Sorted(f) && Sorted(g)
    requires forall n :: Lookup(f, n) == Lookup(g, n)
    ensures ForkIdAt(f, genesisTime, genesisHash, head) == ForkIdAt(g, genesisTime, genesisHash, head)
  {
    SameActivations(f, g, genesisTime);
    ActivationsAscend(f, genesisTime);
    ActivationsAscend(g, genesisTime);
    ForkIdDependsOnSets(Blocks(f), Times(f, genesisTime), Blocks(g), Times(g, genesisTime), genesisHash, head);
  }

  /** The genesis header is computed from the schedule by looking forks up, so its hash does not depend on
      the order of the list. */
  ghost predicate ReadsSchedule(header: Forks -> nat) {
    forall f, g :: (forall n :: Lookup(f, n) == Lookup(g, n)) ==> header(f) == header(g)
  }

  /** Only the final schedule matters for the fork identifier, not the order, the number or the origin of
      the overrides that led to it. */
  lemma OverridesDetermineForkId(
    f: Forks, g: Forks, fs: seq<Override>, gs: seq<Override>, sf: Name -> Condition, sg: Name -> Condition,
    genesisTime: nat, header: Forks -> nat, head: Head)
    requires WellFormed(f) && OrderedAfter(f, fs) && forall n :: Lookup(f, n) == sf(n)
    requires WellFormed(g) && OrderedAfter(g, gs) && forall n :: Lookup(g, n) == sg(n)
    requires forall n :: Schedule(sf, fs)(n) == Schedule(sg, gs)(n)
    requires ReadsSchedule(header)
    ensures ForkIdAt(SetForks(f, fs), genesisTime, header(SetForks(f, fs)), head)
            == ForkIdAt(SetForks(g, gs), genesisTime, header(SetForks(g, gs)), head)
  {
    SetForksUpdate(f, sf, fs);
    SetForksUpdate(g, sg, gs);
    SameScheduleSameForkId(SetForks(f, fs), SetForks(g, gs), genesisTime, header(SetForks(f, fs)), head);
  }

  lemma {:induction false} OverriddenNamesAgree(sf: Name -> Condition, sg: Name -> Condition, overrides: seq<Override>, n: Name)
    requires sf(n) == sg(n) || exists i :: 0 <= i < |overrides| && Convert(overrides[i].name) == Some(n)
    ensures Schedule(sf, overrides)(n) == Schedule(sg, overrides)(n)
    decreases |overrides|
  {
    if overrides != [] {
      var sf', sg' := Updated(sf, overrides[0]), Updated(sg, overrides[0]);
      if sf'(n) != sg'(n) {
        var i :| 0 <= i < |overrides| && Convert(overrides[i].name) == Some(n);
        assert overrides[1..][i - 1] == overrides[i];
      }
      OverriddenNamesAgree(sf', sg', overrides[1..], n);
    }
  }

  /** Two specs that differ only in forks that both then override have the same fork identifier: a node
      whose genesis carries a fork agrees with one that gets it from the command line. */
  lemma GenesisAndOverrideAgree(
    f: Forks, g: Forks, overrides: seq<Override>, genesisTime: nat, header: Forks -> nat, head: Head)
    requires WellFormed(f) && OrderedAfter(f, overrides) && WellFormed(g) && OrderedAfter(g, overrides)
    requires forall n :: Lookup(f, n) == Lookup(g, n) || exists i :: 0 <= i < |overrides| && Convert(overrides[i].name) == Some(n)
    requires ReadsSchedule(header)
    ensures ForkIdAt(SetForks(f, overrides), genesisTime, header(SetForks(f, overrides)), head)
            == ForkIdAt(SetForks(g, overrides), genesisTime, header(SetForks(g, overrides)), head)
  {
    var sf, sg := n => Lookup(f, n), n => Lookup(g, n);
    forall n ensures Schedule(sf, overrides)(n) == Schedule(sg, overrides)(n) {
      assert Lookup(f, n) == sf(n) && Lookup(g, n) == sg(n);
      OverriddenNamesAgree(sf, sg, overrides, n);
    }
    OverridesDetermineForkId(f, g, overrides, overrides, sf, sg, genesisTime, header, head);
  }

  /** The next fork announced is the earliest activation the head has not reached. */
  lemma {:induction false} FoldNext(s: seq<nat>, head: nat, hash: ForkHash, applied: nat)
    requires Ascending(s)
    ensures var r := Fold(s, head, hash, applied);
            if r.Stopped? then r.id.next in s && r.id.next > head && forall x :: x in s && x > head ==> r.id.next <= x
            else forall x :: x in s ==> x <= head
    decreases |s|
  {
    if s != [] {
      assert s == [s[0]] + s[1..];
      if head < s[0] {
        assert forall x :: x in s ==> s[0] <= x;
      } else if s[0] == applied {
        FoldNext(s[1..], head, hash, applied);
      } else {
        FoldNext(s[1..], head, Add(hash, s[0]), s[0]);
      }
    }
  }

  lemma NextForkIsEarliest(forks: Forks, genesisTime: nat, genesisHash: nat, head: Head)
    requires Sorted(forks)
    ensures var next := ForkIdAt(forks, genesisTime, genesisHash, head).next;
            if exists b: nat :: BlockListed(forks, b) && b > head.number then
              && BlockListed(forks, next) && next > head.number
              && forall b: nat :: BlockListed(forks, b) && b > head.number ==> next <= b
            else if exists t: nat :: TimeListed(forks, t) && t > genesisTime && t > head.timestamp then
              && TimeListed(forks, next) && next > genesisTime && next > head.timestamp
              && forall t: nat :: TimeListed(forks, t) && t > genesisTime && t > head.timestamp ==> next <= t
            else next == 0
  {
    var blocks, times := Blocks(forks), Times(forks, genesisTime);
    ActivationsAscend(forks, genesisTime);
    FoldNext(blocks, head.number, Seed(genesisHash), 0);
    var first := Fold(blocks, head.number, Seed(genesisHash), 0);
    if first.Passed? {
      FoldNext(times, head.timestamp, first.hash, first.applied);
    }
    forall n: nat ensures n in blocks <==> BlockListed(forks, n) ensures n in times <==> n > genesisTime && TimeListed(forks, n) {
      BlocksOf(forks, n);
      TimesOf(forks, genesisTime, n);
    }
  }

  function Reached(s: seq<nat>, head: nat): seq<nat> {
    if s == [] then [] else (if s[0] <= head then [s[0]] else []) + Reached(s[1..], head)
  }

  function AddAll(hash: ForkHash, activations: seq<nat>): ForkHash
    decreases |activations|
  {
    if activations == [] then hash else AddAll(Add(hash, activations[0]), activations[1..])
  }

  function SkipFirst(s: seq<nat>, applied: nat): seq<nat> {
    if s != [] && s[0] == applied then s[1..] else s
  }

  function HashOf(r: Folded): ForkHash {
    if r.Stopped? then r.id.hash else r.hash
  }

  lemma {:induction false} NothingReached(s: seq<nat>, head: nat)
    requires forall i :: 0 <= i < |s| ==> head < s[i]
    ensures Reached(s, head) == []
  {
    if s != [] { NothingReached(s[1..], head); }
  }

  function LastOr(s: seq<nat>, applied: nat): nat {
    if s == [] then applied else s[|s| - 1]
  }

  lemma {:induction false} FoldAddsReached(s: seq<nat>, head: nat, hash: ForkHash, applied: nat)
    requires StrictlyAscending(s)
    ensures var r := Fold(s, head, hash, applied);
            && HashOf(r) == AddAll(hash, Reached(SkipFirst(s, applied), head))
            && (r.Passed? ==> r.applied == LastOr(s, applied))
    decreases |s|
  {
    if s != [] {
      if head < s[0] {
        NothingReached(s, head);
        NothingReached(s[1..], head);
      } else if s[0] == applied {
        FoldAddsReached(s[1..], head, hash, applied);
      } else {
        FoldAddsReached(s[1..], head, Add(hash, s[0]), s[0]);
        assert Reached(s, head)[1..] == Reached(s[1..], head);
      }
    }
  }

  /** The fork hash folds in every distinct activation the head has reached, once and in ascending order,
      block activations before timestamps; timestamps only once all blocks are reached. Left out are block
      zero and a first timestamp that equals the last block activation. */
  lemma ForkHashFoldsReached(forks: Forks, genesisTime: nat, genesisHash: nat, head: Head)
    requires Sorted(forks)
    ensures var blocks, times := Distinct(Blocks(forks)), Distinct(Times(forks, genesisTime));
            var passed := AddAll(Seed(genesisHash), Reached(SkipFirst(blocks, 0), head.number));
            ForkIdAt(forks, genesisTime, genesisHash, head).hash
            == if exists b :: b in blocks && b > head.number then passed
               else AddAll(passed, Reached(SkipFirst(times, LastOr(blocks, 0)), head.timestamp))
  {
    var blocks, times := Distinct(Blocks(forks)), Distinct(Times(forks, genesisTime));
    ActivationsAscend(forks, genesisTime);
    ForkIdDependsOnSets(Blocks(forks), Times(forks, genesisTime), Blocks(forks), Times(forks, genesisTime), genesisHash, head);
    DistinctIsStrict(Blocks(forks));
    DistinctIsStrict(Times(forks, genesisTime));
    FoldAddsReached(blocks, head.number, Seed(genesisHash), 0);
    FoldNext(blocks, head.number, Seed(genesisHash), 0);
    var first := Fold(blocks, head.number, Seed(genesisHash), 0);
    if first.Passed? {
      FoldAddsReached(times, head.timestamp, first.hash, first.applied);
    }
  }

  /** The bare insertion appends: without reordering, one schedule folds to two fork hashes, depending on
      which fork was configured first. */
  lemma AppendingChangesForkId()
    ensures var early, late := Fork("Jovian", Timestamp(10)), Fork("Karst", Timestamp(20));
            var f, g := Insert([late], early), Insert([early], late);
            && (forall n :: Lookup(f, n) == Lookup(g, n))
            && ForkIdAt(f, 0, 7, Head(5, 30)) != ForkIdAt(g, 0, 7, Head(5, 30))
  {
    var early, late := Fork("Jovian", Timestamp(10)), Fork("Karst", Timestamp(20));
    assert early.name[0] != late.name[0];
    var f, g := Insert([late], early), Insert([early], late);
    assert f == [late, early] && g == [early, late];
    TwoTimes(late, early);
    TwoTimes(early, late);
    assert forall n :: Lookup(f, n) == Lookup(g, n);
  }

  lemma TwoTimes(f: Fork, g: Fork)
    requires f.condition.Timestamp? && g.condition.Timestamp?
    requires 0 < f.condition.time <= 30 && 0 < g.condition.time <= 30 && f.condition.time != g.condition.time
    ensures ForkIdAt([f, g], 0, 7, Head(5, 30)) == ForkId(Add(Add(Seed(7), f.condition.time), g.condition.time), 0)
  {
    assert [f, g][1..] == [g] && [g][1..] == [];
    var s, t := f.condition.time, g.condition.time;
    assert Times([g], 0) == [t] && Times([f, g], 0) == [s, t];
    assert Blocks([g]) == [] && Blocks([f, g]) == [];
    assert [s, t][1..] == [t] && [t][1..] == [];
    assert Fold([t], 30, Add(Seed(7), s), s) == Passed(Add(Add(Seed(7), s), t), t);
  }

  // ---------------------------------------------------------------------------------------------
  // Defaults
  // ---------------------------------------------------------------------------------------------

  const JOVIAN_SEPOLIA := 1_777_161_600
  const JOVIAN_MAINNET := 1_777_593_600
  const KARST_SEPOLIA := 1_788_868_800
  const KARST_MAINNET := 1_789_992_000

  datatype Chain = World | WorldSepolia | OtherChain

  function SetMissing(forks: Forks, name: Name, time: nat): Forks {
    if Lookup(forks, name).Never? then SetFork(forks, name, Timestamp(time)) else forks
  }

  function SetMissingKarst(forks: Forks, time: nat): Forks {
    var f := SetMissing(forks, "Karst", time);
    var karst := Lookup(f, "Karst");
    if Lookup(f, "Osaka").Never? && karst.Timestamp? then SetFork(f, "Osaka", karst) else f
  }

  function ApplyDefaults(forks: Forks, chain: Chain): Forks {
    match chain
    case World => SetMissingKarst(SetMissing(forks, "Jovian", JOVIAN_MAINNET), KARST_MAINNET)
    case WorldSepolia => SetMissingKarst(SetMissing(forks, "Jovian", JOVIAN_SEPOLIA), KARST_SEPOLIA)
    case OtherChain => forks
  }

  lemma DefaultNames()
    ensures Convert("Jovian") == Some("Jovian") && Convert("Karst") == Some("Karst") && Convert("Osaka") == Some("Osaka")
    ensures "Jovian" != "Karst" && "Jovian" != "Osaka" && "Karst" != "Osaka"
  {
    assert CANONICAL[..10][8] == "Jovian" && CANONICAL[..10][9] == "Karst";
    assert Lower("Osaka")[0] == 'o' && "tropo"[0] == 't' && "strato"[0] == 's' && "Interop"[0] == 'I';
    assert "Jovian"[0] == 'J' && "Karst"[0] == 'K' && "Osaka"[0] == 'O';
  }

  ghost predicate Fills(before: Forks, after: Forks) {
    forall n :: !Lookup(before, n).Never? ==> Lookup(after, n) == Lookup(before, n)
  }

  lemma SetMissingFills(forks: Forks, name: Name, time: nat)
    requires WellFormed(forks) && Convert(name) == Some(name)
    ensures var after := SetMissing(forks, name, time);
            WellFormed(after) && Fills(forks, after) && !Lookup(after, name).Never? && (Sorted(forks) ==> Sorted(after))
  {
    SetForkUpdates(forks, name, Timestamp(time));
  }

  lemma SetMissingKarstFills(forks: Forks, time: nat)
    requires WellFormed(forks)
    ensures var after := SetMissingKarst(forks, time);
            && WellFormed(after) && Fills(forks, after) && !Lookup(after, "Karst").Never?
            && (Lookup(after, "Karst").Timestamp? ==> !Lookup(after, "Osaka").Never?)
            && (Sorted(forks) ==> Sorted(after))
  {
    DefaultNames();
    SetMissingFills(forks, "Karst", time);
    var f := SetMissing(forks, "Karst", time);
    SetForkUpdates(f, "Osaka", Lookup(f, "Karst"));
  }

  /** The defaults keep every fork with an explicit activation, leave none of their own forks out, keep the
      activation order, and change nothing when applied again. */
  lemma DefaultsKeepExplicitForks(forks: Forks, chain: Chain)
    requires WellFormed(forks)
    ensures var after := ApplyDefaults(forks, chain);
            && WellFormed(after) && Fills(forks, after) && (Sorted(forks) ==> Sorted(after))
            && (chain != OtherChain ==> !Lookup(after, "Jovian").Never? && !Lookup(after, "Karst").Never?)
            && (chain != OtherChain && Lookup(after, "Karst").Timestamp? ==> !Lookup(after, "Osaka").Never?)
            && ApplyDefaults(after, chain) == after
  {
    if chain != OtherChain {
      DefaultNames();
      var (jovian, karst) := if chain.World? then (JOVIAN_MAINNET, KARST_MAINNET) else (JOVIAN_SEPOLIA, KARST_SEPOLIA);
      SetMissingFills(forks, "Jovian", jovian);
      SetMissingKarstFills(SetMissing(forks, "Jovian", jovian), karst);
    }
  }

  lemma SetMissingSchedule(forks: Forks, name: Name, time: nat, n: Name)
    requires WellFormed(forks) && Convert(name) == Some(name)
    ensures Lookup(SetMissing(forks, name, time), n)
            == if n == name && Lookup(forks, name).Never? then Timestamp(time) else Lookup(forks, n)
  {
    SetForkUpdates(forks, name, Timestamp(time));
  }

  lemma SetMissingKarstSchedule(forks: Forks, time: nat, n: Name)
    requires WellFormed(forks)
    ensures var after, karst := SetMissingKarst(forks, time), Lookup(SetMissingKarst(forks, time), "Karst");
            Lookup(after, n)
            == if !Lookup(forks, n).Never? then Lookup(forks, n)
               else if n == "Karst" then Timestamp(time)
               else if n == "Osaka" && karst.Timestamp? then karst
               else Never
  {
    DefaultNames();
    SetMissingFills(forks, "Karst", time);
    SetMissingSchedule(forks, "Karst", time, n);
    SetMissingSchedule(forks, "Karst", time, "Karst");
    SetMissingSchedule(forks, "Karst", time, "Osaka");
    var f := SetMissing(forks, "Karst", time);
    var karst := Lookup(f, "Karst");
    SetForkUpdates(f, "Osaka", karst);
    assert Lookup(SetMissingKarst(forks, time), "Karst") == karst;
  }

  /** The schedule after the defaults: on each of the two chains a missing Jovian or Karst activates at that chain's
      time, a missing Osaka with Karst if that activates at a time, and every other fork as configured. */
  lemma DefaultsSchedule(forks: Forks, chain: Chain, n: Name)
    requires WellFormed(forks)
    ensures var after, configured := Lookup(ApplyDefaults(forks, chain), n), Lookup(forks, n);
            var karst := Lookup(ApplyDefaults(forks, chain), "Karst");
            if chain == OtherChain || !configured.Never? then after == configured
            else if n == "Jovian" then after == Timestamp(if chain == World then 1_777_593_600 else 1_777_161_600)
            else if n == "Karst" then after == Timestamp(if chain == World then 1_789_992_000 else 1_788_868_800)
            else if n == "Osaka" && karst.Timestamp? then after == karst
            else after == Never
  {
    if chain != OtherChain {
      DefaultNames();
      var (jovian, karst) := if chain.World? then (JOVIAN_MAINNET, KARST_MAINNET) else (JOVIAN_SEPOLIA, KARST_SEPOLIA);
      SetMissingFills(forks, "Jovian", jovian);
      SetMissingSchedule(forks, "Jovian", jovian, n);
      SetMissingKarstSchedule(SetMissing(forks, "Jovian", jovian), karst, n);
    }
  }

  // ---------------------------------------------------------------------------------------------
  // The spec object
  // ---------------------------------------------------------------------------------------------

  /** Takes the forks named in `order` out of the list, one by one. */
  method TakeInOrder(forks: Forks, order: seq<Name>) returns (taken: Forks, configured: Forks)
    ensures (taken, configured) == Selected(forks, order)
  {
    taken, configured := [], forks;
    assert order[0..] == order && taken + Selected(forks, order).0 == Selected(forks, order).0;
    for i := 0 to |order|
      invariant var rest := Selected(configured, order[i..]);
                Selected(forks, order) == (taken + rest.0, rest.1)
    {
      assert order[i..][0] == order[i] && order[i..][1..] == order[i + 1..];
      var pos := Position(configured, order[i]);
      if pos < |configured| {
        var found := configured[pos];
        assert forall picked: Forks :: taken + ([found] + picked) == taken + [found] + picked;
        taken, configured := taken + [found], Without(configured, pos);
      }
    }
    assert taken + [] == taken;
  }

  method OrderWorldHardforks(forks: Forks) returns (ordered: Forks)
    ensures ordered == Order(forks)
  {
    var taken, configured := TakeInOrder(forks, CANONICAL);
    ordered := StableSort(taken + configured);
  }

  class WorldChainSpec {
    const chain: Chain
    const header: Forks -> nat
    var forks: Forks
    var genesisHash: nat

    ghost predicate Valid()
      reads this
    {
      WellFormed(forks) && genesisHash == header(forks)
    }

    constructor FromConfigured(configured: Forks, chain: Chain, header: Forks -> nat)
      requires WellFormed(configured)
      ensures Valid() && Sorted(forks) && this.chain == chain && this.header == header
      ensures forks == ApplyDefaults(Order(configured), chain)
    {
      this.chain := chain;
      this.header := header;
      var ordered := OrderWorldHardforks(configured);
      forks := ordered;
      genesisHash := header(ordered);
      new;
      OrderIsCanonical(configured);
      PermutationKeepsWellFormed(configured, ordered);
      DefaultsKeepExplicitForks(ordered, chain);
      ApplyWorldChainDefaults();
    }

    method Set(name: Name, condition: Condition)
      requires Valid()
      modifies this
      ensures Valid() && forks == SetFork(old(forks), name, condition)
    {
      var converted := Convert(name);
      if converted.None? { return; }
      SetForkUpdates(forks, name, condition);
      forks := Insert(forks, Fork(converted.value, condition));
      forks := OrderWorldHardforks(Converted(forks));
      genesisHash := header(forks);
    }

    method SetMissingWorldFork(name: Name, time: nat)
      requires Valid()
      modifies this
      ensures Valid() && forks == SetMissing(old(forks), name, time)
    {
      if Lookup(forks, name).Never? {
        Set(name, Timestamp(time));
      }
    }

    method SetMissingKarstForks(time: nat)
      requires Valid()
      modifies this
      ensures Valid() && forks == SetMissingKarst(old(forks), time)
    {
      SetMissingWorldFork("Karst", time);
      var karst := Lookup(forks, "Karst");
      if Lookup(forks, "Osaka").Never? && karst.Timestamp? {
        Set("Osaka", karst);
      }
    }

    method ApplyWorldChainDefaults()
      requires Valid()
      modifies this
      ensures Valid() && forks == ApplyDefaults(old(forks), chain)
    {
      match chain
      case World =>
        SetMissingWorldFork("Jovian", JOVIAN_MAINNET);
        SetMissingKarstForks(KARST_MAINNET);
      case WorldSepolia =>
        SetMissingWorldFork("Jovian", JOVIAN_SEPOLIA);
        SetMissingKarstForks(KARST_SEPOLIA);
      case OtherChain =>
    }
  }
}
