/** Medians and spreads of the paired timing gate (scripts/perf/lib.ts,
    scripts/perf/gate.ts). */
module GateStats {
  import opened Text
  import opened Sorting

  /** A run's log time, or `Never` for content that did not appear (Infinity). */
  datatype Value = Fin(r: real) | Never

  const NOT_SLOWER := (a: Value, b: Value) => b.Never? || (a.Fin? && a.r <= b.r)

  function Ceil(x: real): int { -((-x).Floor) }

  lemma AtMostAll(n: real, quantile: real)
    requires n >= 0.0 && quantile <= 1.0
    ensures n * quantile <= n
  {
    assert n * (1.0 - quantile) >= 0.0;
  }

  /** The position of the nearest-rank percentile among `n` sorted values. */
  function Rank(n: nat, quantile: real): (i: nat)
    requires n > 0 && 0.0 <= quantile <= 1.0
    ensures i < n
  {
    AtMostAll(n as real, quantile);
    var c := Ceil(n as real * quantile);
    if c < 1 then 0 else c - 1
  }

  /** Nearest-rank percentile: none of no values. */
  function Percentile(values: seq<Value>, quantile: real): Option<Value>
    requires 0.0 <= quantile <= 1.0
  {
    if values == [] then None
    else
      SortKeeps(values, NOT_SLOWER);
      Some(Sort(values, NOT_SLOWER)[Rank(|values|, quantile)])
  }

  function Median(values: seq<Value>): Option<Value> { Percentile(values, 0.5) }

  lemma MedianRank(n: nat)
    requires n > 0
    ensures Rank(n, 0.5) == (n - 1) / 2
  {
    var h := (n + 1) / 2;
    assert h as real - 1.0 < n as real * 0.5 <= h as real;
  }

  const ANY := (v: Value) => true

  lemma ValueOrder()
    ensures Preorder(NOT_SLOWER, ANY)
    ensures forall a, b :: NOT_SLOWER(a, b) && NOT_SLOWER(b, a) ==> a == b
  {
  }

  lemma MedianAt(values: seq<Value>)
    requires values != []
    ensures |Sort(values, NOT_SLOWER)| == |values|
    ensures Median(values) == Some(Sort(values, NOT_SLOWER)[(|values| - 1) / 2])
  {
    SortKeeps(values, NOT_SLOWER);
    MedianRank(|values|);
  }

  // ── Order does not matter ─────────────────────────────────────────────

  /** The median depends only on which values there are. */
  lemma MedianPermutes(s: seq<Value>, t: seq<Value>)
    requires multiset(s) == multiset(t)
    ensures Median(s) == Median(t)
  {
    assert |s| == |multiset(s)| == |multiset(t)| == |t|;
    if s != [] {
      ValueOrder();
      SortSorts(s, NOT_SLOWER, ANY);
      SortSorts(t, NOT_SLOWER, ANY);
      SortedUnique(Sort(s, NOT_SLOWER), Sort(t, NOT_SLOWER), NOT_SLOWER);
      MedianAt(s);
      MedianAt(t);
    }
  }

  // ── Lost runs ─────────────────────────────────────────────────────────

  function Lost(values: seq<Value>): nat {
    if values == [] then 0 else Lost(values[1..]) + if values[0].Never? then 1 else 0
  }

  lemma {:induction false} LostCounts(values: seq<Value>)
    ensures Lost(values) == multiset(values)[Never] <= |values|
  {
    if values != [] {
      LostCounts(values[1..]);
      assert values == [values[0]] + values[1..];
    }
  }

  /** In sorted values the lost runs come last. */
  lemma {:induction false} LostLast(s: seq<Value>, i: nat)
    requires SortedBy(s, NOT_SLOWER) && i < |s|
    ensures s[i].Never? <==> i >= |s| - Lost(s)
  {
    LostCounts(s);
    if i > 0 {
      LostLast(s[1..], i - 1);
    } else if s[0].Never? {
      NeverSorted(s);
      AllLost(s);
    }
    LostCounts(s[1..]);
  }

  lemma {:induction false} AllLost(s: seq<Value>)
    requires forall i :: 0 <= i < |s| ==> s[i].Never?
    ensures Lost(s) == |s|
  {
    if s != [] { AllLost(s[1..]); }
  }

  /** The median run is lost exactly when strictly more than half the runs are. */
  lemma MedianLostIff(values: seq<Value>)
    requires values != []
    ensures Median(values) == Some(Never) <==> 2 * Lost(values) > |values|
  {
    var s := Sort(values, NOT_SLOWER);
    ValueOrder();
    SortSorts(values, NOT_SLOWER, ANY);
    MedianAt(values);
    LostCounts(values);
    LostCounts(s);
    NeverSorted(s);
    LostLast(s, (|values| - 1) / 2);
  }

  lemma NeverSorted(s: seq<Value>)
    requires SortedBy(s, NOT_SLOWER)
    ensures forall i, j :: 0 <= i < j < |s| && s[i].Never? ==> s[j].Never?
  {
    forall i, j | 0 <= i < j < |s| && s[i].Never? ensures s[j].Never? { assert NOT_SLOWER(s[i], s[j]); }
  }

  /** The finite values, in order: `values.filter(Number.isFinite)`. */
  function Finite(values: seq<Value>): seq<real> {
    if values == [] then [] else (if values[0].Fin? then [values[0].r] else []) + Finite(values[1..])
  }

  function Wrap(values: seq<real>): seq<Value> {
    seq(|values|, i requires 0 <= i < |values| => Fin(values[i]))
  }

  lemma WrapHead(x: real, s: seq<real>)
    ensures Wrap([x] + s) == [Fin(x)] + Wrap(s)
  {
  }

  lemma {:induction false} FiniteCount(values: seq<Value>)
    ensures |Finite(values)| + Lost(values) == |values|
    ensures Lost(values) == 0 ==> Wrap(Finite(values)) == values
  {
    if values != [] {
      FiniteCount(values[1..]);
      if values[0].Fin? {
        WrapHead(values[0].r, Finite(values[1..]));
        assert values == [values[0]] + values[1..];
      }
    }
  }

  // ── Spread ────────────────────────────────────────────────────────────

  const DISTANCE := (a: real, b: real) => if a < b then b - a else a - b

  function DistancesFrom<T, U>(d: (T, T) -> U, x: T, s: seq<T>): seq<U> {
    if s == [] then [] else [d(x, s[0])] + DistancesFrom(d, x, s[1..])
  }

  /** Distances of every two values, in the loops' order. */
  function PairDistances<T, U>(d: (T, T) -> U, s: seq<T>): seq<U> {
    if s == [] then [] else DistancesFrom(d, s[0], s[1..]) + PairDistances(d, s[1..])
  }

  function AllDistances(groups: seq<seq<real>>): seq<real> {
    if groups == [] then [] else PairDistances(DISTANCE, groups[0]) + AllDistances(groups[1..])
  }

  /** 0.6745 times the square root of two. */
  const SCALE := 0.6745 * 1.4142135623730951

  /** The spread that some differences tell; none (NaN) from fewer than three. */
  function SpreadOf(differences: seq<real>): Option<real> {
    if |differences| < 3 then None
    else
      match Median(Wrap(differences))
      case Some(Fin(m)) => Some(m / SCALE)
      case _ => None
  }

  /** `pooledSpread`. */
  function Spread(groups: seq<seq<real>>): Option<real> { SpreadOf(AllDistances(groups)) }

  ghost predicate Symmetric<T(!new), U>(d: (T, T) -> U) { forall a, b :: d(a, b) == d(b, a) }

  lemma {:induction false} DistancesFromMiddle<T, U>(d: (T, T) -> U, x: T, a: seq<T>, y: T, b: seq<T>)
    ensures multiset(DistancesFrom(d, x, a + [y] + b)) == multiset{d(x, y)} + multiset(DistancesFrom(d, x, a + b))
  {
    if a == [] {
      assert a + [y] + b == [y] + b && a + b == b && ([y] + b)[1..] == b;
    } else {
      assert (a + [y] + b)[1..] == a[1..] + [y] + b && (a + b)[1..] == a[1..] + b;
      DistancesFromMiddle(d, x, a[1..], y, b);
    }
  }

  lemma PairsOfFirst<T, U>(d: (T, T) -> U, x: T, s: seq<T>)
    ensures multiset(PairDistances(d, [x] + s)) == multiset(DistancesFrom(d, x, s)) + multiset(PairDistances(d, s))
  {
    assert ([x] + s)[1..] == s;
  }

  /** One more element in front. */
  lemma MiddleStep<T(!new), U>(d: (T, T) -> U, x: T, y: T, longer: seq<T>, s: seq<T>)
    requires Symmetric(d)
    requires multiset(PairDistances(d, longer)) == multiset(DistancesFrom(d, y, s)) + multiset(PairDistances(d, s))
    requires multiset(DistancesFrom(d, x, longer)) == multiset{d(x, y)} + multiset(DistancesFrom(d, x, s))
    ensures multiset(PairDistances(d, [x] + longer)) ==
            multiset(DistancesFrom(d, y, [x] + s)) + multiset(PairDistances(d, [x] + s))
  {
    PairsOfFirst(d, x, longer);
    PairsOfFirst(d, x, s);
    assert ([x] + s)[1..] == s && d(x, y) == d(y, x);
    assert DistancesFrom(d, y, [x] + s) == [d(x, y)] + DistancesFrom(d, y, s);
  }

  lemma {:induction false} PairDistancesMiddle<T(!new), U>(d: (T, T) -> U, a: seq<T>, y: T, b: seq<T>)
    requires Symmetric(d)
    ensures multiset(PairDistances(d, a + [y] + b)) ==
            multiset(DistancesFrom(d, y, a + b)) + multiset(PairDistances(d, a + b))
  {
    if a == [] {
      assert a + [y] + b == [y] + b && a + b == b;
      PairsOfFirst(d, y, b);
    } else {
      var x, rest := a[0], a[1..];
      assert a + [y] + b == [x] + (rest + [y] + b) && a + b == [x] + (rest + b);
      PairDistancesMiddle(d, rest, y, b);
      DistancesFromMiddle(d, x, rest, y, b);
      MiddleStep(d, x, y, rest + [y] + b, rest + b);
    }
  }

  lemma {:induction false} DistancesFromPermute<T(!new), U>(d: (T, T) -> U, x: T, s: seq<T>, t: seq<T>)
    requires multiset(s) == multiset(t)
    ensures multiset(DistancesFrom(d, x, s)) == multiset(DistancesFrom(d, x, t))
  {
    assert |s| == |multiset(s)| == |multiset(t)| == |t|;
    if s != [] {
      var a, b := AroundHead(s, t);
      DistancesFromPermute(d, x, s[1..], a + b);
      DistancesFromMiddle(d, x, a, s[0], b);
    }
  }

  lemma {:induction false} PairDistancesPermute<T(!new), U>(d: (T, T) -> U, s: seq<T>, t: seq<T>)
    requires Symmetric(d) && multiset(s) == multiset(t)
    ensures multiset(PairDistances(d, s)) == multiset(PairDistances(d, t))
  {
    assert |s| == |multiset(s)| == |multiset(t)| == |t|;
    if s != [] {
      var a, b := AroundHead(s, t);
      PairDistancesPermute(d, s[1..], a + b);
      DistancesFromPermute(d, s[0], s[1..], a + b);
      PairDistancesMiddle(d, a, s[0], b);
    }
  }

  /** The groups with the order inside each forgotten. */
  function Bags(groups: seq<seq<real>>): seq<multiset<real>> {
    seq(|groups|, i requires 0 <= i < |groups| => multiset(groups[i]))
  }

  lemma {:induction false} AllDistancesMiddle(a: seq<seq<real>>, g: seq<real>, b: seq<seq<real>>)
    ensures multiset(AllDistances(a + [g] + b)) == multiset(PairDistances(DISTANCE, g)) + multiset(AllDistances(a + b))
  {
    if a == [] {
      assert a + [g] + b == [g] + b && a + b == b && ([g] + b)[1..] == b;
    } else {
      assert (a + [g] + b)[1..] == a[1..] + [g] + b && (a + b)[1..] == a[1..] + b;
      AllDistancesMiddle(a[1..], g, b);
    }
  }

  lemma {:induction false} AllDistancesPermute(s: seq<seq<real>>, t: seq<seq<real>>)
    requires multiset(Bags(s)) == multiset(Bags(t))
    ensures multiset(AllDistances(s)) == multiset(AllDistances(t))
  {
    assert |s| == |multiset(Bags(s))| == |multiset(Bags(t))| == |t|;
    if s != [] {
      SameMembers(Bags(s), Bags(t));
      assert Bags(s)[0] in Bags(t);
      var i :| 0 <= i < |t| && multiset(t[i]) == multiset(s[0]);
      var a, b := t[..i], t[i + 1..];
      assert t == a + [t[i]] + b;
      BagsWithout(s, t, a, b, i);
      AllDistancesPermute(s[1..], a + b);
      AllDistancesMiddle(a, t[i], b);
      PairDistancesPermute(DISTANCE, s[0], t[i]);
    }
  }

  lemma BagsWithout(s: seq<seq<real>>, t: seq<seq<real>>, a: seq<seq<real>>, b: seq<seq<real>>, i: nat)
    requires s != [] && i < |t| && a == t[..i] && b == t[i + 1..] && multiset(t[i]) == multiset(s[0])
    requires multiset(Bags(s)) == multiset(Bags(t))
    ensures multiset(Bags(s[1..])) == multiset(Bags(a + b))
  {
    DropBoth(Bags(s), Bags(t), i);
    assert Bags(s)[1..] == Bags(s[1..]);
    assert Bags(t)[..i] + Bags(t)[i + 1..] == Bags(a + b);
  }

  lemma {:induction false} WrapPermute(s: seq<real>, t: seq<real>)
    requires multiset(s) == multiset(t)
    ensures multiset(Wrap(s)) == multiset(Wrap(t))
  {
    assert |s| == |multiset(s)| == |multiset(t)| == |t|;
    if s != [] {
      var a, b := AroundHead(s, t);
      WrapPermute(s[1..], a + b);
      assert Wrap(s) == [Fin(s[0])] + Wrap(s[1..]);
      assert Wrap(t) == Wrap(a) + [Fin(s[0])] + Wrap(b);
      assert Wrap(a + b) == Wrap(a) + Wrap(b);
    }
  }

  /** The spread depends neither on the order of the groups nor on the order of
      the runs in a group. */
  lemma SpreadPermutes(s: seq<seq<real>>, t: seq<seq<real>>)
    requires multiset(Bags(s)) == multiset(Bags(t))
    ensures Spread(s) == Spread(t)
  {
    AllDistancesPermute(s, t);
    var x, y := AllDistances(s), AllDistances(t);
    assert |x| == |multiset(x)| == |multiset(y)| == |y|;
    WrapPermute(x, y);
    MedianPermutes(Wrap(x), Wrap(y));
  }

  /** How many pairs `n` values have. */
  function Triangle(n: nat): nat { if n == 0 then 0 else Triangle(n - 1) + n - 1 }

  lemma {:induction false} PairCount<T, U>(d: (T, T) -> U, s: seq<T>)
    ensures |PairDistances(d, s)| == Triangle(|s|)
  {
    if s != [] {
      FromCount(d, s[0], s[1..]);
      PairCount(d, s[1..]);
    }
  }

  lemma {:induction false} FromCount<T, U>(d: (T, T) -> U, x: T, s: seq<T>)
    ensures |DistancesFrom(d, x, s)| == |s|
  {
    if s != [] { FromCount(d, x, s[1..]); }
  }

  lemma {:induction false} DistancesPositive(groups: seq<seq<real>>)
    ensures forall i :: 0 <= i < |AllDistances(groups)| ==> AllDistances(groups)[i] >= 0.0
  {
    if groups != [] {
      DistancesPositive(groups[1..]);
      PairDistancesPositive(groups[0]);
    }
  }

  lemma {:induction false} PairDistancesPositive(s: seq<real>)
    ensures forall i :: 0 <= i < |PairDistances(DISTANCE, s)| ==> PairDistances(DISTANCE, s)[i] >= 0.0
  {
    if s != [] {
      PairDistancesPositive(s[1..]);
      DistancesFromPositive(s[0], s[1..]);
    }
  }

  lemma {:induction false} DistancesFromPositive(x: real, s: seq<real>)
    ensures forall i :: 0 <= i < |DistancesFrom(DISTANCE, x, s)| ==> DistancesFrom(DISTANCE, x, s)[i] >= 0.0
  {
    if s != [] { DistancesFromPositive(x, s[1..]); }
  }

  /** The median is one of the values. */
  lemma MedianIsMember(values: seq<Value>)
    requires values != []
    ensures Median(values).Some? && Median(values).value in values
  {
    MedianAt(values);
    SortKeeps(values, NOT_SLOWER);
    SameMembers(values, Sort(values, NOT_SLOWER));
    assert Median(values).value in Sort(values, NOT_SLOWER);
  }

  /** A spread is known from three differences on, and never negative. */
  lemma SpreadKnown(groups: seq<seq<real>>)
    ensures Spread(groups).Some? <==> |AllDistances(groups)| >= 3
    ensures Spread(groups).Some? ==> Spread(groups).value >= 0.0
  {
    var d := AllDistances(groups);
    if |d| >= 3 {
      MedianIsMember(Wrap(d));
      DistancesPositive(groups);
      var i :| 0 <= i < |Wrap(d)| && Wrap(d)[i] == Median(Wrap(d)).value;
      assert Median(Wrap(d)).value == Fin(d[i]);
      assert d[i] / SCALE >= 0.0;
    }
  }

  /** The two inner loops of `pooledSpread`. */
  method PushPairs<T, U>(d: (T, T) -> U, values: seq<T>, before: seq<U>) returns (differences: seq<U>)
    ensures differences == before + PairDistances(d, values)
  {
    differences := before;
    for i := 0 to |values|
      invariant differences + PairDistances(d, values[i..]) == before + PairDistances(d, values)
    {
      ghost var outer := differences;
      ghost var row := DistancesFrom(d, values[i], values[i + 1..]);
      for j := i + 1 to |values|
        invariant differences + DistancesFrom(d, values[i], values[j..]) == outer + row
      {
        differences := differences + [d(values[i], values[j])];
        assert values[j..][1..] == values[j + 1..];
      }
      assert differences == outer + row;
      assert values[i..][1..] == values[i + 1..];
      assert outer + (row + PairDistances(d, values[i + 1..])) == differences + PairDistances(d, values[i + 1..]);
    }
  }

  lemma NextGroup(groups: seq<seq<real>>, g: nat)
    requires g < |groups|
    ensures AllDistances(groups[g..]) == PairDistances(DISTANCE, groups[g]) + AllDistances(groups[g + 1..])
  {
    assert groups[g..][1..] == groups[g + 1..];
  }

  lemma Regroup(a: seq<real>, b: seq<real>, c: seq<real>)
    ensures a + (b + c) == (a + b) + c
  {
  }

  /** The outer loop: the differences of every group. */
  method Differences(groups: seq<seq<real>>) returns (differences: seq<real>)
    ensures differences == AllDistances(groups)
  {
    differences := [];
    for g := 0 to |groups|
      invariant differences + AllDistances(groups[g..]) == AllDistances(groups)
    {
      NextGroup(groups, g);
      Regroup(differences, PairDistances(DISTANCE, groups[g]), AllDistances(groups[g + 1..]));
      differences := PushPairs(DISTANCE, groups[g], differences);
    }
  }

  /** `pooledSpread` with its loops. */
  method PooledSpread(groups: seq<seq<real>>) returns (spread: Option<real>)
    ensures spread == Spread(groups)
  {
    var differences := Differences(groups);
    return SpreadOf(differences);
  }
}
