/** What the run-to-run noise does to the verdicts of the timing gate
    (scripts/perf/gate.ts): the spread is a middle distance of two runs, and a
    change counts only beyond `k` times its standard error. */
module GateNoise {
  import opened Text
  import opened Sorting
  import opened GateStats
  import opened Gate
  import opened GateCompare
  import opened GateServer

  // ── The spread is a middle distance ───────────────────────────────────

  function Gap(a: real, b: real): real { if a > b then a - b else b - a }

  /** The positions of every two values whose distance `near` admits. */
  function Pairs(s: seq<real>, near: real -> bool): set<(int, int)> {
    set i, j | 0 <= i < j < |s| && near(Gap(s[i], s[j])) :: (i, j)
  }

  /** How many pairs of one group those are, over all groups. */
  function PairsOf(groups: seq<seq<real>>, near: real -> bool): nat {
    if groups == [] then 0 else |Pairs(groups[0], near)| + PairsOf(groups[1..], near)
  }

  lemma {:induction false} FilterConcat<T>(a: seq<T>, b: seq<T>, keep: T -> bool)
    ensures Filter(a + b, keep) == Filter(a, keep) + Filter(b, keep)
  {
    if a == [] {
      assert a + b == b;
    } else {
      assert (a + b)[1..] == a[1..] + b && (a + b)[0] == a[0];
      FilterConcat(a[1..], b, keep);
      var first := if keep(a[0]) then [a[0]] else [];
      assert Filter(a, keep) == first + Filter(a[1..], keep);
      assert Filter(a + b, keep) == first + (Filter(a[1..], keep) + Filter(b, keep));
    }
  }

  /** The positions of a row of distances, as pairs with the value it is for. */
  function FromFirst(row: seq<real>, near: real -> bool): set<(int, int)> {
    set j | 0 <= j < |row| && near(row[j]) :: (0, j + 1)
  }

  lemma {:induction false} FromFirstCounted(row: seq<real>, near: real -> bool)
    ensures |FromFirst(row, near)| == |Filter(row, near)|
  {
    if row != [] {
      var n := |row| - 1;
      var front := row[..n];
      FromFirstCounted(front, near);
      assert row == front + [row[n]];
      FilterConcat(front, [row[n]], near);
      assert [row[n]][1..] == [];
      assert FromFirst(row, near) == FromFirst(front, near) + if near(row[n]) then {(0, n + 1)} else {};
    }
  }

  lemma {:induction false} RowValues(x: real, s: seq<real>, j: nat)
    requires j < |s|
    ensures |DistancesFrom(DISTANCE, x, s)| == |s| && DistancesFrom(DISTANCE, x, s)[j] == Gap(x, s[j])
  {
    if j > 0 { RowValues(x, s[1..], j - 1); } else { FromCount(DISTANCE, x, s); }
    FromCount(DISTANCE, x, s);
  }

  /** The loops record the distance of every two values of a group, once. */
  lemma {:induction false} PairsCounted(s: seq<real>, near: real -> bool)
    ensures |Pairs(s, near)| == |Filter(PairDistances(DISTANCE, s), near)|
  {
    if s != [] {
      var row, rest := DistancesFrom(DISTANCE, s[0], s[1..]), s[1..];
      PairsCounted(rest, near);
      FilterConcat(row, PairDistances(DISTANCE, rest), near);
      FromFirstCounted(row, near);
      FromCount(DISTANCE, s[0], rest);
      forall j | 0 <= j < |rest| ensures row[j] == Gap(s[0], s[j + 1]) { RowValues(s[0], rest, j); }
      PairsSplit(s, near, row);
    }
  }

  /** The pairs of a list without its first value, in the list. */
  function Shifted(pairs: set<(int, int)>): set<(int, int)> { set p | p in pairs :: (p.0 + 1, p.1 + 1) }

  lemma InShifted(pairs: set<(int, int)>, q: (int, int))
    ensures q in Shifted(pairs) <==> (q.0 - 1, q.1 - 1) in pairs
  {
    if (q.0 - 1, q.1 - 1) in pairs { assert q == ((q.0 - 1) + 1, (q.1 - 1) + 1); }
  }

  lemma ShiftedOneMore(pairs: set<(int, int)>, p: (int, int))
    requires p !in pairs
    ensures Shifted(pairs + {p}) == Shifted(pairs) + {(p.0 + 1, p.1 + 1)}
    ensures (p.0 + 1, p.1 + 1) !in Shifted(pairs)
  {
    InShifted(pairs, (p.0 + 1, p.1 + 1));
    forall q ensures q in Shifted(pairs + {p}) <==> q in Shifted(pairs) + {(p.0 + 1, p.1 + 1)} {
      InShifted(pairs + {p}, q);
      InShifted(pairs, q);
    }
  }

  lemma {:induction false} ShiftedSize(pairs: set<(int, int)>)
    ensures |Shifted(pairs)| == |pairs|
  {
    if pairs != {} {
      var p :| p in pairs;
      ShiftedSize(pairs - {p});
      ShiftedOneMore(pairs - {p}, p);
      assert pairs == pairs - {p} + {p};
    }
  }

  predicate IsRow(s: seq<real>, row: seq<real>) {
    s != [] && |row| == |s| - 1 && forall j :: 0 <= j < |row| ==> row[j] == Gap(s[0], s[j + 1])
  }

  lemma FirstOrLater(s: seq<real>, near: real -> bool, row: seq<real>)
    requires IsRow(s, row)
    ensures Pairs(s, near) == FromFirst(row, near) + Shifted(Pairs(s[1..], near))
  {
    var all, later := Pairs(s, near), Pairs(s[1..], near);
    forall p | p in all ensures p in FromFirst(row, near) + Shifted(later) {
      if p.0 > 0 { assert (p.0 - 1, p.1 - 1) in later; }
      else { assert p == (0, (p.1 - 1) + 1) && near(row[p.1 - 1]); }
    }
    forall p | p in Shifted(later) ensures p in all { assert (p.0 - 1, p.1 - 1) in later; }
    forall p | p in FromFirst(row, near) ensures p in all { }
  }

  lemma PairsSplit(s: seq<real>, near: real -> bool, row: seq<real>)
    requires IsRow(s, row)
    ensures |Pairs(s, near)| == |Pairs(s[1..], near)| + |FromFirst(row, near)|
  {
    FirstOrLater(s, near, row);
    ShiftedSize(Pairs(s[1..], near));
    assert FromFirst(row, near) !! Shifted(Pairs(s[1..], near));
  }

  lemma {:induction false} AllPairsCounted(groups: seq<seq<real>>, near: real -> bool)
    ensures PairsOf(groups, near) == |Filter(AllDistances(groups), near)|
  {
    if groups != [] {
      PairsCounted(groups[0], near);
      AllPairsCounted(groups[1..], near);
      FilterConcat(PairDistances(DISTANCE, groups[0]), AllDistances(groups[1..]), near);
    }
  }

  lemma {:induction false} FilterPermutes<T>(s: seq<T>, t: seq<T>, keep: T -> bool)
    requires multiset(s) == multiset(t)
    ensures |Filter(s, keep)| == |Filter(t, keep)|
  {
    assert |s| == |multiset(s)| == |multiset(t)| == |t|;
    if s != [] {
      var a, b := AroundHead(s, t);
      FilterPermutes(s[1..], a + b, keep);
      FilterConcat(a + [s[0]], b, keep);
      FilterConcat(a, [s[0]], keep);
      FilterConcat(a, b, keep);
      assert [s[0]][1..] == [];
    }
  }

  lemma {:induction false} FilterNothing<T>(s: seq<T>, keep: T -> bool)
    requires forall x :: x in s ==> !keep(x)
    ensures Filter(s, keep) == []
  {
    if s != [] { FilterNothing(s[1..], keep); }
  }

  /** Fewer than half of the values are below a median that is not lost, and at
      least half are up to it. */
  lemma ValuesMiddle(values: seq<Value>, middle: real)
    requires values != [] && Median(values) == Some(Fin(middle))
    ensures 2 * |Filter(values, (v: Value) => v.Fin? && v.r < middle)| < |values|
    ensures |values| <= 2 * |Filter(values, (v: Value) => v.Fin? && v.r <= middle)|
  {
    var sorted, r := Sort(values, NOT_SLOWER), (|values| - 1) / 2;
    ValueOrder();
    SortSorts(values, NOT_SLOWER, ANY);
    MedianAt(values);
    FilterPermutes(values, sorted, (v: Value) => v.Fin? && v.r < middle);
    FilterPermutes(values, sorted, (v: Value) => v.Fin? && v.r <= middle);
    SortedSides(sorted, r, middle);
  }

  lemma FiniteHead(values: seq<Value>)
    requires values != []
    ensures Finite(values) ==
            if values[0].Fin? then [values[0].r] + Finite(values[1..]) else Finite(values[1..])
  {
    if values[0].Never? { assert [] + Finite(values[1..]) == Finite(values[1..]); }
  }

  lemma {:induction false} FilterFinite(values: seq<Value>, near: real -> bool, keep: Value -> bool)
    requires forall v :: keep(v) <==> v.Fin? && near(v.r)
    ensures |Filter(values, keep)| == |Filter(Finite(values), near)|
  {
    if values != [] {
      FilterFinite(values[1..], near, keep);
      FiniteHead(values);
      if values[0].Fin? {
        FilterConcat([values[0].r], Finite(values[1..]), near);
        assert [values[0].r][1..] == [];
      }
    }
  }

  /** What holds of a middle distance: it is one, with fewer than half of `all`
      below it and at least half up to it. */
  predicate IsMiddle(groups: seq<seq<real>>, all: nat, middle: real) {
    && PairsOf(groups, x => x == middle) > 0
    && 2 * PairsOf(groups, x => x < middle) < all <= 2 * PairsOf(groups, x => x <= middle)
  }

  lemma MedianIsMiddle(groups: seq<seq<real>>, values: seq<Value>, all: nat, middle: real)
    requires Finite(values) == AllDistances(groups) && all == |values| > 0 && Median(values) == Some(Fin(middle))
    ensures IsMiddle(groups, all, middle)
  {
    var d := AllDistances(groups);
    ValuesMiddle(values, middle);
    FilterFinite(values, x => x < middle, (v: Value) => v.Fin? && v.r < middle);
    FilterFinite(values, x => x <= middle, (v: Value) => v.Fin? && v.r <= middle);
    FilterFinite(values, x => x == middle, (v: Value) => v.Fin? && v.r == middle);
    AllPairsCounted(groups, x => x < middle);
    AllPairsCounted(groups, x => x <= middle);
    AllPairsCounted(groups, x => x == middle);
    MedianIsMember(values);
    FilterMember(values, (v: Value) => v.Fin? && v.r == middle, Fin(middle));
  }

  lemma SortedSides(sorted: seq<Value>, r: nat, middle: real)
    requires SortedBy(sorted, NOT_SLOWER) && r < |sorted| && sorted[r] == Fin(middle)
    ensures |Filter(sorted, (v: Value) => v.Fin? && v.r < middle)| <= r
    ensures |Filter(sorted, (v: Value) => v.Fin? && v.r <= middle)| >= r + 1
  {
    var below, upTo := (v: Value) => v.Fin? && v.r < middle, (v: Value) => v.Fin? && v.r <= middle;
    assert sorted == sorted[..r] + sorted[r..] && sorted == sorted[..r + 1] + sorted[r + 1..];
    FilterConcat(sorted[..r], sorted[r..], below);
    FilterConcat(sorted[..r + 1], sorted[r + 1..], upTo);
    forall i | r <= i < |sorted| ensures !below(sorted[i]) { assert i > r ==> NOT_SLOWER(sorted[r], sorted[i]); }
    FilterNothing(sorted[r..], below);
    FilterShorter(sorted[..r], below);
    forall i | 0 <= i <= r ensures upTo(sorted[i]) { assert i < r ==> NOT_SLOWER(sorted[i], sorted[r]); }
    FilterAll(sorted[..r + 1], upTo);
  }

  lemma {:induction false} FilterShorter<T>(s: seq<T>, keep: T -> bool)
    ensures |Filter(s, keep)| <= |s|
  {
    if s != [] { FilterShorter(s[1..], keep); }
  }

  lemma {:induction false} FiniteWrapped(s: seq<real>)
    ensures Finite(Wrap(s)) == s
  {
    if s != [] {
      FiniteWrapped(s[1..]);
      assert Wrap(s)[1..] == Wrap(s[1..]);
    }
  }

  /** A spread is known from three pairs on, and 0.6745 times the square root of
      two times the spread is then the middle distance of two values of one group:
      one of them, with fewer than half of all below it and at least half up to it. */
  lemma SpreadIsMiddle(groups: seq<seq<real>>)
    ensures Spread(groups).Some? <==> PairsOf(groups, x => true) >= 3
    ensures Spread(groups).Some? ==>
              IsMiddle(groups, PairsOf(groups, x => true), Spread(groups).value * (0.6745 * 1.4142135623730951))
  {
    var d := AllDistances(groups);
    AllPairsCounted(groups, x => true);
    FilterAll(d, x => true);
    FiniteWrapped(d);
    if |d| >= 3 {
      MedianIsMember(Wrap(d));
      MedianIsMiddle(groups, Wrap(d), PairsOf(groups, x => true), Median(Wrap(d)).value.r);
    }
  }

  lemma FiniteConcat(a: seq<Option<Value>>, b: seq<Option<Value>>)
    requires None !in a && None !in b
    ensures None !in a + b && Finite(Numbers(a + b)) == Finite(Numbers(a)) + Finite(Numbers(b))
  {
    assert Numbers(a + b) == Numbers(a) + Numbers(b);
    FiniteAppended(Numbers(a), Numbers(b));
  }

  lemma {:induction false} FiniteAppended(a: seq<Value>, b: seq<Value>)
    ensures Finite(a + b) == Finite(a) + Finite(b)
  {
    if a == [] {
      assert a + b == b;
    } else {
      assert (a + b)[1..] == a[1..] + b && (a + b)[0] == a[0];
      FiniteAppended(a[1..], b);
      FiniteHead(a);
      FiniteHead(a + b);
    }
  }

  lemma {:induction false} FiniteFrom(x: Value, s: seq<Value>)
    requires None !in DistancesFrom(VALUE_DISTANCE, x, s)
    ensures Finite(Numbers(DistancesFrom(VALUE_DISTANCE, x, s))) ==
            if x.Never? then [] else DistancesFrom(DISTANCE, x.r, Finite(s))
  {
    if s != [] {
      var first, rest := [VALUE_DISTANCE(x, s[0])], DistancesFrom(VALUE_DISTANCE, x, s[1..]);
      assert None !in rest && first[0] in first + rest;
      FiniteFrom(x, s[1..]);
      FiniteConcat(first, rest);
      FiniteHead(s);
      assert Numbers(first) == [first[0].value] && Numbers(first)[1..] == [];
      FiniteHead(Numbers(first));
      if x.Fin? && s[0].Fin? { assert ([s[0].r] + Finite(s[1..]))[1..] == Finite(s[1..]); }
    }
  }

  /** The finite distances of a side are those of its finite times. */
  lemma {:induction false} FinitePairs(s: seq<Value>)
    requires None !in PairDistances(VALUE_DISTANCE, s)
    ensures Finite(Numbers(PairDistances(VALUE_DISTANCE, s))) == PairDistances(DISTANCE, Finite(s))
  {
    if s != [] {
      var row, rest := DistancesFrom(VALUE_DISTANCE, s[0], s[1..]), PairDistances(VALUE_DISTANCE, s[1..]);
      assert None !in row && None !in rest;
      FiniteFrom(s[0], s[1..]);
      FinitePairs(s[1..]);
      FiniteConcat(row, rest);
      FiniteHead(s);
      if s[0].Fin? { assert ([s[0].r] + Finite(s[1..]))[1..] == Finite(s[1..]); }
    }
  }

  /** A route's known spread likewise, among all pairs of its runs on one side: a
      distance from an infinite time counts as above every other. */
  lemma RouteSpreadIsMiddle(base: seq<Value>, head: seq<Value>, middle: real)
    requires RouteNoise(base, head).Known? && middle == RouteNoise(base, head).sigma * (0.6745 * 1.4142135623730951)
    ensures IsMiddle([Finite(base), Finite(head)], Triangle(|base|) + Triangle(|head|), middle)
  {
    KnownMedian(RouteDistances(base, head));
    RouteMiddle(base, head, middle);
  }

  lemma RouteMiddle(base: seq<Value>, head: seq<Value>, middle: real)
    requires None !in RouteDistances(base, head) && |RouteDistances(base, head)| > 0
    requires Median(Numbers(RouteDistances(base, head))) == Some(Fin(middle))
    ensures IsMiddle([Finite(base), Finite(head)], Triangle(|base|) + Triangle(|head|), middle)
  {
    var groups, all := [Finite(base), Finite(head)], Triangle(|base|) + Triangle(|head|);
    RouteFinite(base, head);
    MedianIsMiddle(groups, Numbers(RouteDistances(base, head)), all, middle);
  }

  lemma RouteFinite(base: seq<Value>, head: seq<Value>)
    requires None !in RouteDistances(base, head)
    ensures Finite(Numbers(RouteDistances(base, head))) == AllDistances([Finite(base), Finite(head)])
    ensures |Numbers(RouteDistances(base, head))| == Triangle(|base|) + Triangle(|head|)
  {
    var a, b := PairDistances(VALUE_DISTANCE, base), PairDistances(VALUE_DISTANCE, head);
    assert forall x :: x in a + b <==> x in a || x in b;
    PairCount(VALUE_DISTANCE, base);
    PairCount(VALUE_DISTANCE, head);
    FinitePairs(base);
    FinitePairs(head);
    FiniteConcat(a, b);
    TwoGroups(Finite(base), Finite(head));
  }

  lemma KnownMedian(d: seq<Option<Value>>)
    requires NoiseOf(d).Known?
    ensures None !in d && |d| >= 3
    ensures Median(Numbers(d)) == Some(Fin(NoiseOf(d).sigma * (0.6745 * 1.4142135623730951)))
  {
    assert NoiseOf(d).sigma * SCALE == Median(Numbers(d)).value.r;
  }

  // ── Verdicts in noise ─────────────────────────────────────────────────

  /** A change exceeds `k` standard errors of the difference of the medians of `n`
      and `n'` runs that spread by `sigma`. */
  predicate BeyondNoise(change: real, sigma: real, k: real, n: nat, n': nat)
    requires n > 0 && n' > 0
  {
    change > 0.0 &&
    change * change > k * k * (1.2533 * 1.2533) * (sigma * sigma) * (1.0 / n as real + 1.0 / n' as real)
  }

  lemma Squares(c: real, x: real)
    requires c > 0.0 && x >= 0.0
    ensures c > x <==> c * c > x * x
  {
    var sum := c + x;
    assert (c - x) * sum == c * c - x * x;
    if c > x { assert (c - x) * sum > 0.0; } else { assert (x - c) * sum >= 0.0; }
  }

  lemma ErrorSquared(m: Maths, sigma: real, n: nat)
    requires Lawful(m) && n > 0
    ensures MedianError(m, sigma, n) * MedianError(m, sigma, n) ==
            (1.2533 * 1.2533) * (sigma * sigma) * (1.0 / n as real)
  {
    var root := m.sqrt(1.0 / n as real);
    assert 1.0 / n as real >= 0.0;
    assert root * root == 1.0 / n as real;
    SquareOfProduct(1.2533, sigma, root);
  }

  lemma SquareOfProduct(a: real, b: real, c: real)
    ensures (a * b * c) * (a * b * c) == (a * a) * (b * b) * (c * c)
  {
    var x := a * b;
    assert (x * c) * (x * c) == (x * x) * (c * c);
    assert x * x == (a * a) * (b * b);
  }

  lemma NoiseSquared(m: Maths, change: real, sigma: real, k: real, n: nat, n': nat)
    requires Lawful(m) && k >= 0.0 && n > 0 && n' > 0 && change > 0.0
    ensures k * ChangeError(m, Some(sigma), n, n') >= 0.0
    ensures change > k * ChangeError(m, Some(sigma), n, n') <==> BeyondNoise(change, sigma, k, n, n')
  {
    var a, b := MedianError(m, sigma, n), MedianError(m, sigma, n');
    var error := ChangeError(m, Some(sigma), n, n');
    ErrorSquared(m, sigma, n);
    ErrorSquared(m, sigma, n');
    assert a * a >= 0.0 && b * b >= 0.0;
    assert error * error == a * a + b * b;
    assert k * error >= 0.0;
    Squares(change, k * error);
    SquareOfProduct(1.0, k, error);
    Distribute((1.2533 * 1.2533) * (sigma * sigma), 1.0 / n as real, 1.0 / n' as real, k * k);
  }

  lemma Distribute(c: real, x: real, y: real, kk: real)
    ensures kk * (c * x + c * y) == kk * c * (x + y)
  {
    assert c * x + c * y == c * (x + y);
  }

  /** `h` exceeds `b` by more than the factor by which `t + limit` exceeds `t`. */
  predicate OverLimit(h: real, b: real, t: real, limit: real) { h * t > b * (t + limit) }

  lemma FactorInTimes(h: real, b: real, t: real, limit: real)
    requires t > 0.0
    ensures h > b * (1.0 + Ratio(limit, t)) <==> OverLimit(h, b, t, limit)
  {
    var factor := 1.0 + Ratio(limit, t);
    assert factor * t == t + limit;
    assert b * factor * t == b * (t + limit);
    if h > b * factor { assert (h - b * factor) * t > 0.0; } else { assert (b * factor - h) * t >= 0.0; }
  }

  /** A change of medians exceeds both the floor and the noise. */
  lemma SlowerInNoise(m: Maths, head: real, base: real, t: real, limit: real, sigma: real, k: real, n: nat, n': nat)
    requires Lawful(m) && t > 0.0 && limit > 0.0 && k >= 0.0 && n > 0 && n' > 0
    ensures head - base > Max(Floor(m, limit, t), k * ChangeError(m, Some(sigma), n, n')) <==>
            OverLimit(m.exp(head), m.exp(base), t, limit) && BeyondNoise(head - base, sigma, k, n, n')
  {
    RatioPlus(t, limit);
    FloorRule(m, head, base, t, limit);
    LogCompare(m, m.exp(head), m.exp(base), 1.0 + Ratio(limit, t));
    FactorInTimes(m.exp(head), m.exp(base), t, limit);
    if head - base > 0.0 { NoiseSquared(m, head - base, sigma, k, n, n'); }
  }

  lemma TwoLimits(h: real, b: real, t: real, x: real, y: real)
    requires b > 0.0
    ensures OverLimit(h, b, t, Max(x, y)) <==> OverLimit(h, b, t, x) && OverLimit(h, b, t, y)
  {
    if x < y { assert b * (y - x) > 0.0; } else { assert b * (x - y) >= 0.0; }
  }

  /** The journey rule at center `head` and `base` of the logs. */
  predicate NoisyClick(m: Maths, head: real, base: real, t: real, sigma: real, k: real, n: nat, n': nat)
    requires n > 0 && n' > 0
  {
    && OverLimit(m.exp(head), m.exp(base), t, t * 0.1) && OverLimit(m.exp(head), m.exp(base), t, 30.0)
    && BeyondNoise(head - base, sigma, k, n, n')
  }

  lemma SlowerIsNoisyClick(m: Maths, head: real, base: real, t: real, sigma: real, k: real, n: nat, n': nat)
    requires Lawful(m) && t > 0.0 && k >= 0.0 && n > 0 && n' > 0
    ensures Slower(m, head - base, t, ChangeError(m, Some(sigma), n, n'), k) <==>
            NoisyClick(m, head, base, t, sigma, k, n, n')
  {
    LimitsPositive(t);
    SlowerInNoise(m, head, base, t, ClickLimit(t), sigma, k, n, n');
    TwoLimits(m.exp(head), m.exp(base), t, t * 0.1, 30.0);
  }

  lemma {:induction false} NoisyVerdict(
      m: Maths, key: string, base: seq<Value>, head: seq<Value>, sigma: Option<real>, k: real)
    requires BaseShown(base) && BaseShown(head)
    ensures var j := JudgeClick(m, key, base, head, sigma, k);
            && j.key == key && j.base == BaseTime(m, base) && j.head == Some(m.exp(Center(head)))
            && (j.regressed <==> Slower(m, Center(head) - Center(base), BaseTime(m, base),
                  ChangeError(m, sigma, |base|, |head|), k))
  {
  }

  /** With a known spread, a journey whose head shows content regresses exactly
      when its head median exceeds the ranked base median by the factor of more
      than 10% and more than 30 ms over the reported base time, and the change of
      the logs, squared, exceeds `k` squared times its variance. */
  lemma {:induction false} NoisyClickRule(
      m: Maths, key: string, base: seq<Value>, head: seq<Value>, sigma: real, k: real)
    requires Lawful(m) && BaseShown(base) && BaseShown(head) && k >= 0.0
    ensures var j, t := JudgeClick(m, key, base, head, Some(sigma), k), BaseTime(m, base);
            && j.key == key && j.base == t && j.head == Some(m.exp(Center(head)))
            && (j.regressed <==> NoisyClick(m, Center(head), Center(base), t, sigma, k, |base|, |head|))
  {
    NoisyVerdict(m, key, base, head, Some(sigma), k);
    SlowerIsNoisyClick(m, Center(head), Center(base), BaseTime(m, base), sigma, k, |base|, |head|);
  }

  /** The route rule at center `head` and `base` of the logs. */
  predicate NoisyRoute(m: Maths, head: real, base: real, sigma: real, k: real, n: nat, n': nat)
    requires n > 0 && n' > 0
  {
    var h, b := m.exp(head), m.exp(base);
    h > b + 0.1 * b && (b < 1.0 ==> h > b + 1.0) && BeyondNoise(head - base, sigma, k, n, n')
  }

  lemma SlowerIsNoisyRoute(m: Maths, head: real, base: real, sigma: real, k: real, n: nat, n': nat)
    requires Lawful(m) && k >= 0.0 && n > 0 && n' > 0
    ensures ServerSlower(m, m.exp(head), m.exp(base), ChangeError(m, Some(sigma), n, n'), k) <==>
            NoisyRoute(m, head, base, sigma, k, n, n')
  {
    var h, b := m.exp(head), m.exp(base);
    LimitsPositive(b);
    SlowerInNoise(m, head, base, b, ServerLimit(b), sigma, k, n, n');
    assert m.log(Ratio(h, b)) == head - base;
    TimesBase(h, b, ServerLimit(b));
    LimitIsBoth(h, b);
  }

  /** So does a route with a known spread: by more than 10%, by more than 1 ms when
      the base is under 1 ms, and beyond its own noise. */
  lemma {:induction false} NoisyRouteRule(m: Maths, base: seq<Value>, head: seq<Value>, k: real)
    requires Lawful(m) && BaseShown(base) && BaseShown(head) && k >= 0.0 && RouteNoise(base, head).Known?
    ensures RouteVerdict(m, base, head, k) ==
            Some(NoisyRoute(m, Center(head), Center(base), RouteNoise(base, head).sigma, k, |base|, |head|))
  {
    SlowerIsNoisyRoute(m, Center(head), Center(base), RouteNoise(base, head).sigma, k, |base|, |head|);
  }

  /** Without a spread a route is judged by the documented rule alone. */
  lemma {:induction false} UnknownRouteRule(m: Maths, base: seq<Value>, head: seq<Value>, k: real)
    requires Lawful(m) && BaseShown(base) && BaseShown(head) && RouteNoise(base, head).Unknown?
    ensures var b, h := m.exp(Center(base)), m.exp(Center(head));
            RouteVerdict(m, base, head, k) == Some(h > b + 0.1 * b && (b < 1.0 ==> h > b + 1.0))
  {
    DocumentedServerRule(m, Center(base), Center(head), k);
  }

  /** A head that took no positive time in most of its runs regresses, unless the
      spread is infinite or left to the order of sorting. */
  lemma {:induction false} LostHeadRegresses(m: Maths, base: seq<Value>, head: seq<Value>, k: real)
    requires BaseShown(base) && 2 * Lost(head) > |head|
    requires RouteNoise(base, head).Unknown? || RouteNoise(base, head).Known?
    ensures head != [] && RouteVerdict(m, base, head, k) == Some(true)
  {
    MedianLostIff(head);
  }

  lemma TimesBase(h: real, b: real, limit: real)
    requires b > 0.0
    ensures OverLimit(h, b, b, limit) <==> h > b + limit
  {
    if h > b + limit { assert (h - (b + limit)) * b > 0.0; } else { assert ((b + limit) - h) * b >= 0.0; }
  }
}
