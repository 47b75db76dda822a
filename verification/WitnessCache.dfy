/** The bounded cache of execution witnesses: what it holds after any history of inserts. */
module WitnessCaching {
  import opened Wrappers

  const TWO_64 := 0x1_0000_0000_0000_0000

  type Number = n: nat | n < TWO_64

  datatype Insertion<W> = Insertion(number: Number, data: W)

  // ---------------------------------------------------------------------------------------------
  // Eviction
  // ---------------------------------------------------------------------------------------------

  ghost predicate IsLowest(s: set<Number>, x: Number) {
    x in s && forall y :: y in s ==> x <= y
  }

  lemma {:induction false} LowestExists(s: set<Number>)
    requires s != {}
    ensures exists x :: IsLowest(s, x)
    decreases |s|
  {
    var x :| x in s;
    if s - {x} == {} {
      assert s == {x} + (s - {x});
      assert IsLowest(s, x);
    } else {
      LowestExists(s - {x});
      var y :| IsLowest(s - {x}, y);
      var low := if x < y then x else y;
      forall z | z in s ensures low <= z { assert z == x || z in s - {x}; }
      assert IsLowest(s, low);
    }
  }

  ghost function Lowest(s: set<Number>): (x: Number)
    requires s != {}
    ensures IsLowest(s, x)
  {
    LowestExists(s);
    var x :| IsLowest(s, x);
    x
  }

  ghost function Evict<W>(m: map<Number, W>, depth: nat): map<Number, W>
    decreases |m|
  {
    if |m| <= depth then m
    else
      assert m.Keys != {};
      Evict(m - {Lowest(m.Keys)}, depth)
  }

  ghost function Contents<W>(history: seq<Insertion<W>>, depth: nat): map<Number, W> {
    if history == [] then map[]
    else
      var last := history[|history| - 1];
      Evict(Contents(history[..|history| - 1], depth)[last.number := last.data], depth)
  }

  // ---------------------------------------------------------------------------------------------
  // What the history leaves
  // ---------------------------------------------------------------------------------------------

  ghost function Numbers<W>(history: seq<Insertion<W>>): set<Number> {
    set i | 0 <= i < |history| :: history[i].number
  }

  /** The `depth` highest numbers of a set. */
  ghost function Highest(s: set<Number>, depth: nat): set<Number> {
    set x | x in s && |set y | y in s && y > x| < depth
  }

  /** The witness inserted last for a number. */
  ghost function Latest<W>(history: seq<Insertion<W>>, n: Number): W
    requires n in Numbers(history)
  {
    var last := history[|history| - 1];
    if last.number == n then last.data else Latest(history[..|history| - 1], n)
  }

  /** `kept` is closed upwards in `all`, and full if anything was left out. */
  ghost predicate KeepsTop(kept: set<Number>, all: set<Number>, depth: nat) {
    && kept <= all && |kept| <= depth
    && (kept != all ==> |kept| == depth)
    && forall x, y :: x in all && x !in kept && y in kept ==> x < y
  }

  lemma SmallerSet(s: set<Number>, t: set<Number>)
    requires s <= t
    ensures |s| <= |t|
    ensures s != t ==> |s| < |t|
  {
    assert t == s + (t - s);
    if s != t { assert t - s != {}; }
  }

  lemma KeepsTopIsHighest(kept: set<Number>, all: set<Number>, depth: nat)
    requires KeepsTop(kept, all, depth)
    ensures kept == Highest(all, depth)
  {
    forall x | x in all ensures x in kept <==> |set y | y in all && y > x| < depth {
      var above := set y | y in all && y > x;
      if x in kept {
        SmallerSet(above, kept);
      } else {
        SmallerSet(kept, above);
      }
    }
  }

  /** The keys left after inserting `n` and evicting the lowest if the cache is over its depth. */
  ghost function Kept(s: set<Number>, depth: nat): set<Number> {
    if |s| <= depth then s else assert s != {}; s - {Lowest(s)}
  }

  lemma EvictOnce<W>(m: map<Number, W>, depth: nat)
    requires |m| <= depth + 1
    ensures Evict(m, depth) == map k | k in m && k in Kept(m.Keys, depth) :: m[k]
  {}

  lemma OneMore(s: set<Number>, n: Number)
    ensures |s + {n}| == if n in s then |s| else |s| + 1
  {
    if n in s { assert s + {n} == s; }
  }

  /** Inserting and evicting keeps the highest numbers, also when a number evicted earlier comes back. */
  lemma KeptIsTop(kept: set<Number>, all: set<Number>, depth: nat, n: Number)
    requires KeepsTop(kept, all, depth) && depth > 0
    ensures KeepsTop(Kept(kept + {n}, depth), all + {n}, depth)
  {
    OneMore(kept, n);
    var s := kept + {n};
    if |s| <= depth {
      assert n in kept || kept == all;
    } else {
      var low := Lowest(s);
      var rest := s - {low};
      assert |rest| == depth;
      forall x, y | x in all + {n} && x !in rest && y in rest ensures x < y {
        if x == low {
        } else {
          assert x in all && x !in kept;
          if y == n {
            assert low in kept;
          }
        }
      }
    }
  }

  lemma ContentsAppend<W>(before: seq<Insertion<W>>, last: Insertion<W>, depth: nat)
    requires |Contents(before, depth)| <= depth
    ensures var m := Contents(before, depth)[last.number := last.data];
            Contents(before + [last], depth) == map k | k in m && k in Kept(Contents(before, depth).Keys + {last.number}, depth) :: m[k]
    ensures Contents(before + [last], depth).Keys == Kept(Contents(before, depth).Keys + {last.number}, depth)
  {
    assert (before + [last])[..|before|] == before;
    var m := Contents(before, depth)[last.number := last.data];
    assert m.Keys == Contents(before, depth).Keys + {last.number};
    OneMore(Contents(before, depth).Keys, last.number);
    EvictOnce(m, depth);
  }

  lemma {:induction false} KeysAreTop<W>(history: seq<Insertion<W>>, depth: nat)
    requires depth > 0
    ensures KeepsTop(Contents(history, depth).Keys, Numbers(history), depth)
  {
    if history != [] {
      var before, last := history[..|history| - 1], history[|history| - 1];
      assert history == before + [last];
      KeysAreTop(before, depth);
      var kept := Contents(before, depth).Keys;
      ContentsAppend(before, last, depth);
      NumbersAppend(before, last);
      KeptIsTop(kept, Numbers(before), depth, last.number);
    }
  }

  lemma {:induction false} ValuesAreLatest<W>(history: seq<Insertion<W>>, depth: nat, n: Number)
    requires depth > 0 && n in Contents(history, depth)
    ensures n in Numbers(history) && Contents(history, depth)[n] == Latest(history, n)
  {
    KeysAreTop(history, depth);
    if history != [] {
      var before, last := history[..|history| - 1], history[|history| - 1];
      assert history == before + [last];
      KeysAreTop(before, depth);
      ContentsAppend(before, last, depth);
      if n != last.number { ValuesAreLatest(before, depth, n); }
    }
  }

  /** After any inserts the cache holds exactly the `depth` highest distinct block numbers ever inserted,
      all of them if there are fewer, each with the witness inserted last for it. */
  lemma HoldsHighest<W>(history: seq<Insertion<W>>, depth: nat)
    requires depth > 0
    ensures Contents(history, depth).Keys == Highest(Numbers(history), depth)
    ensures forall n :: n in Contents(history, depth) ==> n in Numbers(history) && Contents(history, depth)[n] == Latest(history, n)
  {
    KeysAreTop(history, depth);
    KeepsTopIsHighest(Contents(history, depth).Keys, Numbers(history), depth);
    forall n | n in Contents(history, depth) ensures n in Numbers(history) && Contents(history, depth)[n] == Latest(history, n) {
      ValuesAreLatest(history, depth, n);
    }
  }

  lemma NumbersAppend<W>(before: seq<Insertion<W>>, last: Insertion<W>)
    ensures Numbers(before + [last]) == Numbers(before) + {last.number}
  {
    var after := before + [last];
    forall x ensures x in Numbers(after) <==> x in Numbers(before) + {last.number} {
      if x in Numbers(before) {
        var i :| 0 <= i < |before| && before[i].number == x;
        assert after[i].number == x;
      }
      if x == last.number { assert after[|before|].number == x; }
    }
  }

  // ---------------------------------------------------------------------------------------------
  // Ranges
  // ---------------------------------------------------------------------------------------------

  /** The witnesses stored for `lo` up to but not including `hi`, in ascending order. */
  function Collected<W>(m: map<Number, W>, lo: nat, hi: nat): seq<W>
    requires lo <= hi <= TWO_64
  {
    if lo == hi then []
    else Collected(m, lo, hi - 1) + (if hi - 1 in m then [m[hi - 1]] else [])
  }

  lemma {:induction false} CollectedIsFull<W>(m: map<Number, W>, lo: nat, hi: nat)
    requires lo <= hi <= TWO_64
    ensures |Collected(m, lo, hi)| <= hi - lo
    ensures |Collected(m, lo, hi)| == hi - lo <==> forall n: Number :: lo <= n < hi ==> n in m
    ensures |Collected(m, lo, hi)| == hi - lo ==> forall i :: 0 <= i < hi - lo ==> lo + i in m && Collected(m, lo, hi)[i] == m[lo + i]
    ensures Collected(m, lo, hi) == [] <==> forall n: Number :: lo <= n < hi ==> n !in m
    decreases hi
  {
    if lo < hi {
      CollectedIsFull(m, lo, hi - 1);
      var last: Number := hi - 1;
      assert last in m || last !in m;
    }
  }

  function RangeOf<W>(m: map<Number, W>, start: Number, end: Number): Option<seq<W>> {
    if end < start then None
    else
      var witnesses := Collected(m, start, end + 1);
      if |witnesses| == (end - start + 1) % TWO_64 then Some(witnesses) else None
  }

  /** A range of fewer than 2^64 blocks is served exactly when it is not inverted and every block in it is
      present, and then in ascending order. The full range has a length that wraps to zero: it is served,
      empty, exactly when the cache is empty. */
  lemma RangeServedIff<W>(m: map<Number, W>, start: Number, end: Number)
    ensures end - start + 1 < TWO_64 ==>
              (RangeOf(m, start, end).Some? <==> start <= end && forall n: Number :: start <= n <= end ==> n in m)
    ensures end - start + 1 < TWO_64 && RangeOf(m, start, end).Some? ==>
              && |RangeOf(m, start, end).value| == end - start + 1
              && forall i :: 0 <= i < end - start + 1 ==> start + i in m && RangeOf(m, start, end).value[i] == m[start + i]
    ensures end - start + 1 == TWO_64 ==> RangeOf(m, start, end) == if m.Keys == {} then Some([]) else None
  {
    if start <= end {
      CollectedIsFull(m, start, end + 1);
      if end - start + 1 == TWO_64 && m.Keys != {} {
        var n :| n in m;
        assert start <= n < end + 1;
      }
    }
  }

  // ---------------------------------------------------------------------------------------------
  // The cache
  // ---------------------------------------------------------------------------------------------

  class WitnessCache<W> {
    var inner: map<Number, W>
    const depth: nat
    ghost var history: seq<Insertion<W>>

    ghost predicate Valid()
      reads this
    {
      depth > 0 && inner == Contents(history, depth)
    }

    constructor WithDepth(depth: nat)
      ensures Valid() && history == [] && this.depth == if depth == 0 then 1 else depth
    {
      this.depth := if depth == 0 then 1 else depth;
      inner, history := map[], [];
    }

    method Insert(n: Number, data: W)
      requires Valid()
      modifies this
      ensures Valid() && history == old(history) + [Insertion(n, data)]
    {
      ghost var after := history + [Insertion(n, data)];
      assert after[..|after| - 1] == history;
      inner := inner[n := data];
      history := after;
      while |inner| > depth
        invariant history == after && Evict(inner, depth) == Contents(after, depth)
        decreases |inner|
      {
        var low := FirstKey(inner);
        assert low == Lowest(inner.Keys);
        inner := inner - {low};
      }
      assert inner == Contents(after, depth);
    }

    method Get(n: Number) returns (r: Option<W>)
      requires Valid()
      ensures r == if n in Highest(Numbers(history), depth) && n in Numbers(history) then Some(Latest(history, n)) else None
    {
      HoldsHighest(history, depth);
      r := if n in inner then Some(inner[n]) else None;
    }

    method Bounds() returns (r: Option<(Number, Number)>)
      requires Valid()
      ensures r.None? <==> history == []
      ensures r.Some? ==> forall n :: n in Highest(Numbers(history), depth) ==> r.value.0 <= n <= r.value.1
      ensures r.Some? ==> r.value.0 in Highest(Numbers(history), depth) && r.value.1 in Highest(Numbers(history), depth)
    {
      HoldsHighest(history, depth);
      if inner == map[] {
        assert inner.Keys == {};
        NonEmptyHistory(history, depth);
        return None;
      }
      var low := FirstKey(inner);
      var high := LastKey(inner);
      r := Some((low, high));
    }

    method Range(start: Number, end: Number) returns (r: Option<seq<W>>)
      requires Valid()
      ensures r == RangeOf(Contents(history, depth), start, end)
    {
      if end < start { return None; }
      var witnesses: seq<W> := [];
      for n := start to end + 1
        invariant witnesses == Collected(inner, start, n)
      {
        if n in inner { witnesses := witnesses + [inner[n]]; }
      }
      r := if |witnesses| == (end - start + 1) % TWO_64 then Some(witnesses) else None;
    }

    static method FirstKey(m: map<Number, W>) returns (low: Number)
      requires m != map[]
      ensures low == Lowest(m.Keys)
    {
      var todo := m.Keys;
      low :| low in todo;
      while todo != {}
        invariant todo <= m.Keys && low in m.Keys
        invariant forall y :: y in m.Keys ==> y in todo || low <= y
        decreases |todo|
      {
        var k :| k in todo;
        if k < low { low := k; }
        todo := todo - {k};
      }
      assert IsLowest(m.Keys, low);
    }

    static method LastKey(m: map<Number, W>) returns (high: Number)
      requires m != map[]
      ensures high in m.Keys && forall y :: y in m.Keys ==> y <= high
    {
      var todo := m.Keys;
      high :| high in todo;
      while todo != {}
        invariant todo <= m.Keys && high in m.Keys
        invariant forall y :: y in m.Keys ==> y in todo || y <= high
        decreases |todo|
      {
        var k :| k in todo;
        if k > high { high := k; }
        todo := todo - {k};
      }
    }
  }

  lemma NonEmptyHistory<W>(history: seq<Insertion<W>>, depth: nat)
    requires depth > 0 && Contents(history, depth).Keys == {}
    ensures history == []
  {
    assert history != [] ==> history[0].number in Numbers(history);
    KeysAreTop(history, depth);
  }
}
