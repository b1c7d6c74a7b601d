/** The paired timing gate: which journeys are judged, and how
    (scripts/perf/gate.ts). */
module Gate {
  import opened Text
  import opened Sorting
  import opened GateStats

  /** `Math.log`, `Math.exp` and `Math.sqrt`, of which only laws are used. */
  datatype Maths = Maths(log: real -> real, exp: real -> real, sqrt: real -> real)

  ghost predicate Lawful(m: Maths) {
    && (forall x, y :: 0.0 < x < y ==> m.log(x) < m.log(y))
    && (forall x, y :: x > 0.0 && y > 0.0 ==> m.log(Ratio(x, y)) == m.log(x) - m.log(y))
    && (forall y :: m.exp(y) > 0.0 && m.log(m.exp(y)) == y)
    && (forall x :: m.sqrt(x) >= 0.0 && (x >= 0.0 ==> m.sqrt(x) * m.sqrt(x) == x))
  }

  /** `x / y`; the scripts never divide by zero. */
  function Ratio(x: real, y: real): real { if y == 0.0 then 0.0 else x / y }

  lemma RatioCompare(h: real, b: real, factor: real)
    requires b > 0.0
    ensures Ratio(h, b) > factor <==> h > b * factor
    ensures Ratio(h, b) < factor <==> h < b * factor
    ensures h > 0.0 ==> Ratio(h, b) > 0.0
  {
    var ratio := Ratio(h, b);
    assert ratio * b == h;
    if ratio > factor { assert ratio * b > factor * b; }
    if ratio < factor { assert ratio * b < factor * b; }
  }

  lemma RatioPlus(t: real, limit: real)
    requires t > 0.0 && limit > 0.0
    ensures t * (1.0 + Ratio(limit, t)) == t + limit
    ensures 1.0 + Ratio(limit, t) > 1.0
  {
    RatioCompare(limit, t, 1.0);
    assert t * (limit / t) == limit;
  }

  /** One run's times by key; none for content that never appeared. */
  type Run = map<string, Option<real>>

  // ── Log values of a key's runs ────────────────────────────────────────

  function LogOf(m: Maths, time: Option<real>): Value {
    if time.Some? && time.value > 0.0 then Fin(m.log(time.value)) else Never
  }

  function Logs(m: Maths, runs: seq<Run>, key: string): seq<Value> {
    if runs == [] then []
    else (if key in runs[0] then [LogOf(m, runs[0][key])] else []) + Logs(m, runs[1..], key)
  }

  function Count(runs: seq<Run>, key: string): nat {
    if runs == [] then 0 else Count(runs[1..], key) + if key in runs[0] then 1 else 0
  }

  function AllKeys(runs: seq<Run>): set<string> {
    if runs == [] then {} else runs[0].Keys + AllKeys(runs[1..])
  }

  lemma {:induction false} LogsCount(m: Maths, runs: seq<Run>, key: string)
    ensures |Logs(m, runs, key)| == Count(runs, key)
    ensures Count(runs, key) > 0 <==> key in AllKeys(runs)
    ensures Count(runs, key) <= |runs|
  {
    if runs != [] { LogsCount(m, runs[1..], key); }
  }

  // ── Judging one journey ───────────────────────────────────────────────

  function Max(a: real, b: real): real { if a < b then b else a }

  function ClickLimit(base: real): real { Max(base * 0.1, 30.0) }

  function ServerLimit(base: real): real { if base < 1.0 then Max(base * 0.1, 1.0) else base * 0.1 }

  function MedianError(m: Maths, sigma: real, n: nat): real
    requires n > 0
  {
    1.2533 * sigma * m.sqrt(1.0 / n as real)
  }

  /** The change's standard error; 0 when the spread is not known. */
  function ChangeError(m: Maths, sigma: Option<real>, n: nat, k: nat): real
    requires n > 0 && k > 0
  {
    match sigma
    case None => 0.0
    case Some(s) =>
      var a, b := MedianError(m, s, n), MedianError(m, s, k);
      m.sqrt(a * a + b * b)
  }

  /** The base shows its content in the median run. */
  predicate BaseShown(base: seq<Value>) { base != [] && Median(base) != Some(Never) }

  /** The typical base time that is reported: over the runs that showed content. */
  function BaseTime(m: Maths, base: seq<Value>): real
    requires BaseShown(base)
  {
    ShownHasFinite(base);
    m.exp(Center(Wrap(Finite(base))))
  }

  lemma ShownHasFinite(base: seq<Value>)
    requires BaseShown(base)
    ensures Finite(base) != [] && BaseShown(Wrap(Finite(base)))
  {
    MedianLostIff(base);
    FiniteCount(base);
    WrapIsShown(Finite(base));
  }

  lemma WrapIsShown(values: seq<real>)
    requires values != []
    ensures BaseShown(Wrap(values))
  {
    MedianIsMember(Wrap(values));
  }

  /** The median of values that show content in the median run. */
  function Center(values: seq<Value>): real
    requires BaseShown(values)
  {
    MedianIsMember(values);
    Median(values).value.r
  }

  /** The floor of a change of log times. */
  function Floor(m: Maths, limit: real, t: real): real { m.log(1.0 + Ratio(limit, t)) }

  /** A change of log times counts when it exceeds its floor and its noise. */
  predicate Slower(m: Maths, change: real, baseTime: real, error: real, k: real) {
    change > Max(Floor(m, ClickLimit(baseTime), baseTime), k * error)
  }

  /** A judged journey; `head` is none when the head lost its content. */
  datatype Judged = Judged(key: string, base: real, head: Option<real>, regressed: bool)

  function JudgeClick(m: Maths, key: string, base: seq<Value>, head: seq<Value>, sigma: Option<real>, k: real): Judged
    requires BaseShown(base) && head != []
  {
    var baseTime := BaseTime(m, base);
    var error := ChangeError(m, sigma, |base|, |head|);
    if !BaseShown(head) then Judged(key, baseTime, None, true)
    else Judged(key, baseTime, Some(m.exp(Center(head))), Slower(m, Center(head) - Center(base), baseTime, error, k))
  }

  /** A judged journey is reported as lost, and then as regressed, exactly when
      strictly more than half of its head runs never showed content. */
  lemma {:induction false} LostIffMajority(
      m: Maths, key: string, base: seq<Value>, head: seq<Value>, sigma: Option<real>, k: real)
    requires BaseShown(base) && head != []
    ensures var j := JudgeClick(m, key, base, head, sigma, k);
            && (j.head.None? <==> 2 * Lost(head) > |head|)
            && (j.head.None? ==> j.regressed)
  {
    MedianLostIff(head);
  }

  /** Raising `k` never adds a regression. */
  lemma HigherKIsStricter(
      m: Maths, key: string, base: seq<Value>, head: seq<Value>, sigma: Option<real>, k: real, k': real)
    requires Lawful(m) && BaseShown(base) && head != [] && k <= k'
    ensures JudgeClick(m, key, base, head, sigma, k').regressed ==> JudgeClick(m, key, base, head, sigma, k).regressed
  {
    var error := ChangeError(m, sigma, |base|, |head|);
    ErrorPositive(m, sigma, |base|, |head|);
    if BaseShown(head) { SlowerMonotone(m, Center(head) - Center(base), BaseTime(m, base), error, k, k'); }
  }

  lemma SlowerMonotone(m: Maths, change: real, t: real, error: real, k: real, k': real)
    requires k <= k' && error >= 0.0
    ensures Slower(m, change, t, error, k') ==> Slower(m, change, t, error, k)
  {
    var gap := k' - k;
    assert gap * error >= 0.0;
    assert k' * error == k * error + gap * error;
  }

  lemma ErrorPositive(m: Maths, sigma: Option<real>, n: nat, k: nat)
    requires Lawful(m) && n > 0 && k > 0
    ensures ChangeError(m, sigma, n, k) >= 0.0
  {
    if sigma.Some? {
      var a, b := MedianError(m, sigma.value, n), MedianError(m, sigma.value, k);
      assert m.sqrt(a * a + b * b) >= 0.0;
    }
  }

  /** The floor in log space and in times. */
  lemma FloorRule(m: Maths, head: real, base: real, t: real, limit: real)
    requires Lawful(m) && t > 0.0 && limit > 0.0
    ensures head - base > Max(Floor(m, limit, t), 0.0) <==> m.exp(head) > m.exp(base) * (1.0 + Ratio(limit, t))
  {
    RatioPlus(t, limit);
    LogCompare(m, m.exp(head), m.exp(base), 1.0 + Ratio(limit, t));
  }

  /** Measured from the time the limit is taken of, the floor is the limit. */
  lemma FloorInTimes(m: Maths, head: real, base: real, limit: real)
    requires Lawful(m) && limit > 0.0
    ensures head - base > Max(Floor(m, limit, m.exp(base)), 0.0) <==> m.exp(head) > m.exp(base) + limit
  {
    FloorRule(m, head, base, m.exp(base), limit);
    RatioPlus(m.exp(base), limit);
  }

  lemma LimitsPositive(t: real)
    requires t > 0.0
    ensures ClickLimit(t) > 0.0 && ServerLimit(t) > 0.0
  {
  }

  function ClickFactor(t: real): real { 1.0 + Ratio(ClickLimit(t), t) }

  function Times(base: real, factor: real): real { base * factor }

  /** In times: without noise a change counts exactly when the head median
      exceeds the ranked base median by the click limit of the reported base
      time, as a factor. */
  lemma SlowerWithoutNoise(m: Maths, head: real, base: real, t: real, k: real)
    requires Lawful(m) && t > 0.0
    ensures Slower(m, head - base, t, 0.0, k) <==> m.exp(head) > Times(m.exp(base), ClickFactor(t))
  {
    LimitsPositive(t);
    FloorRule(m, head, base, t, ClickLimit(t));
    NoNoise(m, head - base, t, k);
  }

  lemma NoNoise(m: Maths, change: real, t: real, k: real)
    ensures Slower(m, change, t, 0.0, k) <==> change > Max(Floor(m, ClickLimit(t), t), 0.0)
  {
    assert k * 0.0 == 0.0;
  }

  /** A difference of logs exceeds the log of a factor above one, and hence
      zero, exactly when the times differ by more than the factor. */
  lemma LogCompare(m: Maths, h: real, b: real, factor: real)
    requires Lawful(m) && h > 0.0 && b > 0.0 && factor > 1.0
    ensures m.log(h) - m.log(b) > m.log(factor) <==> h > b * factor
    ensures m.log(factor) > 0.0
  {
    RatioCompare(h, b, factor);
    var ratio := Ratio(h, b);
    assert m.log(ratio) == m.log(h) - m.log(b);
    assert m.log(ratio) > m.log(factor) <==> ratio > factor;
    assert Ratio(1.0, 1.0) == 1.0;
    assert m.log(Ratio(1.0, 1.0)) == m.log(1.0) - m.log(1.0);
    assert m.log(1.0) < m.log(factor);
  }

  /** The documented rule: more than 10% and more than 30 ms over the base. */
  predicate Documented(m: Maths, head: real, base: real) {
    m.exp(head) > base + 0.1 * base && m.exp(head) > base + 30.0
  }

  /** Both rules, at one head time. */
  lemma RulesInTimes(m: Maths, h: real, center: real, t: real, k: real)
    requires Lawful(m) && t > 0.0
    ensures Slower(m, h - center, t, 0.0, k) <==> m.exp(h) > Times(m.exp(center), ClickFactor(t))
    ensures Documented(m, h, t) <==> m.exp(h) > Times(t, ClickFactor(t))
    ensures ClickFactor(t) > 1.0
  {
    SlowerWithoutNoise(m, h, center, t, k);
    DocumentedInTimes(m, h, t);
  }

  lemma DocumentedInTimes(m: Maths, h: real, t: real)
    requires t > 0.0
    ensures Documented(m, h, t) <==> m.exp(h) > Times(t, ClickFactor(t))
    ensures ClickFactor(t) > 1.0
  {
    LimitsPositive(t);
    RatioPlus(t, ClickLimit(t));
    LimitIsBoth(m.exp(h), t);
  }

  /** A head time at which the rules differ when the bases do. */
  lemma HeadBetween(m: Maths, center: real, t: real, k: real) returns (h: real)
    requires Lawful(m) && t > 0.0 && m.exp(center) != t
    ensures Slower(m, h - center, t, 0.0, k) != Documented(m, h, t)
  {
    RulesInTimes(m, center, center, t, k);
    h := LogBetween(m, m.exp(center), t, ClickFactor(t));
    RulesInTimes(m, h, center, t, k);
  }

  lemma LogBetween(m: Maths, c: real, t: real, factor: real) returns (h: real)
    requires Lawful(m) && c > 0.0 && t > 0.0 && factor > 1.0 && c != t
    ensures (m.exp(h) > Times(c, factor)) != (m.exp(h) > Times(t, factor))
  {
    var between := Between(c, t, factor);
    ExpOfLog(m, between);
    h := m.log(between);
  }

  lemma Between(c: real, t: real, factor: real) returns (b: real)
    requires c > 0.0 && t > 0.0 && factor > 1.0 && c != t
    ensures b > 0.0 && (b > c * factor) != (b > t * factor)
  {
    Scaled(c, t, factor);
    Scaled(t, c, factor);
    b := (c * factor + t * factor) / 2.0;
  }

  /** Without noise the rule on a change is the documented one, for every head
      time, exactly when it is measured from the base that the limit is taken of. */
  lemma SlowerAsDocumentedIff(m: Maths, center: real, t: real, k: real)
    requires Lawful(m) && t > 0.0
    ensures (forall h :: Slower(m, h - center, t, 0.0, k) <==> Documented(m, h, t)) <==> m.exp(center) == t
  {
    if m.exp(center) == t {
      forall h ensures Slower(m, h - center, t, 0.0, k) <==> Documented(m, h, t) { RulesInTimes(m, h, center, t, k); }
    } else {
      var h := HeadBetween(m, center, t, k);
    }
  }

  lemma Scaled(c: real, t: real, factor: real)
    requires c > 0.0 && t > 0.0 && factor > 0.0
    ensures c * factor > 0.0 && t * factor > 0.0 && (c < t <==> c * factor < t * factor)
  {
    if c < t { assert (t - c) * factor > 0.0; }
    if t <= c { assert (c - t) * factor >= 0.0; }
  }

  lemma ExpOfLog(m: Maths, t: real)
    requires Lawful(m) && t > 0.0
    ensures m.exp(m.log(t)) == t
  {
    var e := m.exp(m.log(t));
    assert e > 0.0 && m.log(e) == m.log(t);
    assert e < t ==> m.log(e) < m.log(t);
    assert t < e ==> m.log(t) < m.log(e);
  }

  lemma SingleValue(x: real)
    ensures Lost([Fin(x)]) == 0 && Finite([Fin(x)]) == [x]
    ensures BaseShown(Wrap([x])) && Center(Wrap([x])) == x
  {
    var s := [Fin(x)];
    assert s[1..] == [] && Wrap([x]) == s;
    MedianIsMember(s);
  }

  lemma FrontCounts(s: seq<Value>, n: nat, v: Value)
    requires n <= |s| && forall i :: 0 <= i < |s| ==> (s[i].Never? <==> i >= n)
    ensures multiset(s[..n])[v] == if v.Fin? then multiset(s)[v] else 0
  {
    assert s == s[..n] + s[n..];
    assert multiset(s)[v] == multiset(s[..n])[v] + multiset(s[n..])[v];
    if v.Never? { assert v !in s[..n]; } else { assert v !in s[n..]; }
  }

  lemma SortedLost(base: seq<Value>)
    ensures Lost(base) <= |base| == |Sort(base, NOT_SLOWER)| && multiset(Sort(base, NOT_SLOWER)) == multiset(base)
    ensures SortedBy(Sort(base, NOT_SLOWER), NOT_SLOWER)
    ensures forall i :: 0 <= i < |base| ==> (Sort(base, NOT_SLOWER)[i].Never? <==> i >= |base| - Lost(base))
  {
    var s := Sort(base, NOT_SLOWER);
    ValueOrder();
    SortSorts(base, NOT_SLOWER, ANY);
    LostCounts(base);
    LostCounts(s);
    forall i | 0 <= i < |s| ensures s[i].Never? <==> i >= |s| - Lost(s) { LostLast(s, i); }
  }

  lemma SortedCounts(base: seq<Value>)
    ensures Lost(base) <= |base| == |Sort(base, NOT_SLOWER)|
    ensures multiset(Sort(base, NOT_SLOWER)[..|base| - Lost(base)]) == multiset(Wrap(Finite(base)))
  {
    SortedLost(base);
    forall v ensures multiset(Sort(base, NOT_SLOWER)[..|base| - Lost(base)])[v] == multiset(Wrap(Finite(base)))[v] {
      FrontCounts(Sort(base, NOT_SLOWER), |base| - Lost(base), v);
      WrapFiniteCounts(base, v);
    }
  }

  /** The finite values, sorted, are the sorted values before the lost ones. */
  lemma SortedFinite(base: seq<Value>)
    ensures Lost(base) <= |base| == |Sort(base, NOT_SLOWER)|
    ensures Sort(Wrap(Finite(base)), NOT_SLOWER) == Sort(base, NOT_SLOWER)[..|base| - Lost(base)]
  {
    var w := Wrap(Finite(base));
    SortedCounts(base);
    SortedLost(base);
    ValueOrder();
    SortSorts(w, NOT_SLOWER, ANY);
    FrontSorted(Sort(base, NOT_SLOWER), |base| - Lost(base));
    SortedUnique(Sort(w, NOT_SLOWER), Sort(base, NOT_SLOWER)[..|base| - Lost(base)], NOT_SLOWER);
  }

  lemma FrontSorted(s: seq<Value>, n: nat)
    requires SortedBy(s, NOT_SLOWER) && n <= |s|
    ensures SortedBy(s[..n], NOT_SLOWER)
  {
  }

  lemma {:induction false} WrapFiniteCounts(values: seq<Value>, v: Value)
    ensures multiset(Wrap(Finite(values)))[v] == if v.Fin? then multiset(values)[v] else 0
  {
    if values != [] {
      WrapFiniteCounts(values[1..], v);
      assert values == [values[0]] + values[1..];
      assert multiset(values)[v] == multiset(values[1..])[v] + if values[0] == v then 1 else 0;
      var rest := Finite(values[1..]);
      if values[0].Fin? {
        WrapHead(values[0].r, rest);
        assert multiset(Wrap(Finite(values))) == multiset{values[0]} + multiset(Wrap(rest));
      } else {
        assert Finite(values) == rest;
      }
    }
  }

  /** In the sorted base runs, the median of all and the median of those that
      showed their content hold the same time. */
  predicate MediansAgree(base: seq<Value>)
    requires base != [] && Lost(base) < |base|
  {
    SortKeeps(base, NOT_SLOWER);
    Sort(base, NOT_SLOWER)[(|base| - 1) / 2] == Sort(base, NOT_SLOWER)[(|base| - Lost(base) - 1) / 2]
  }

  lemma {:induction false} MediansAgreeIff(m: Maths, base: seq<Value>)
    requires Lawful(m) && BaseShown(base)
    ensures Lost(base) < |base| && (MediansAgree(base) <==> m.exp(Center(base)) == BaseTime(m, base))
  {
    var finite := Wrap(Finite(base));
    ShownHasFinite(base);
    FiniteCount(base);
    SortedFinite(base);
    MedianAt(base);
    MedianAt(finite);
    assert m.log(m.exp(Center(base))) == Center(base) && m.log(m.exp(Center(finite))) == Center(finite);
  }

  /** The verdict on a head that shows content, without noise. */
  lemma {:induction false} VerdictWithoutNoise(m: Maths, key: string, base: seq<Value>, head: seq<Value>, k: real)
    requires BaseShown(base) && BaseShown(head)
    ensures JudgeClick(m, key, base, head, None, k).regressed <==>
            Slower(m, Center(head) - Center(base), BaseTime(m, base), 0.0, k)
  {
  }

  /** The verdict is the documented rule on the base it reports. */
  predicate VerdictDocumented(m: Maths, key: string, base: seq<Value>, head: seq<Value>, k: real)
    requires BaseShown(base) && BaseShown(head)
  {
    JudgeClick(m, key, base, head, None, k).regressed <==> Documented(m, Center(head), BaseTime(m, base))
  }

  /** Without noise a journey's verdict is the documented rule on the base it
      reports, for every head that shows content, exactly when its two base
      medians agree. */
  lemma {:induction false} DocumentedClickRule(m: Maths, key: string, base: seq<Value>, k: real)
    requires Lawful(m) && BaseShown(base)
    ensures Lost(base) < |base|
    ensures (forall head :: BaseShown(head) ==> VerdictDocumented(m, key, base, head, k)) <==> MediansAgree(base)
  {
    var t := BaseTime(m, base);
    MediansAgreeIff(m, base);
    if MediansAgree(base) {
      forall head | BaseShown(head) ensures VerdictDocumented(m, key, base, head, k) {
        VerdictWithoutNoise(m, key, base, head, k);
        SlowerAsDocumentedIff(m, Center(base), t, k);
      }
    } else {
      var h := HeadBetween(m, Center(base), t, k);
      var head := Wrap([h]);
      SingleValue(h);
      VerdictWithoutNoise(m, key, base, head, k);
      assert !VerdictDocumented(m, key, base, head, k);
    }
  }

  /** With a lost base run the two differ: the change is measured from the ranked
      median, the reported base and the limit from the runs that showed content. */
  lemma LostBaseRunShiftsTheBase(m: Maths, fast: real, slow: real)
    requires Lawful(m) && fast < slow
    ensures var base := [Fin(fast), Fin(slow), Never];
            BaseShown(base) && Center(base) == slow && BaseTime(m, base) == m.exp(fast)
  {
    var base := [Fin(fast), Fin(slow), Never];
    assert base[1..] == [Fin(slow), Never] && base[1..][1..] == [Never] && [Never][1..] == [];
    assert Sort([Never], NOT_SLOWER) == [Never];
    assert Sort(base[1..], NOT_SLOWER) == base[1..];
    assert Sort(base, NOT_SLOWER) == base;
    MedianAt(base);
    assert Finite([Never]) == [];
    assert Finite(base[1..]) == [slow];
    assert Finite(base) == [fast, slow];
    var w := [Fin(fast), Fin(slow)];
    assert Wrap(Finite(base)) == w;
    assert w[1..] == [Fin(slow)] && w[1..][1..] == [];
    assert Sort(w[1..], NOT_SLOWER) == [Fin(slow)];
    assert Sort(w, NOT_SLOWER) == w;
    MedianAt(w);
  }

  /** A wrong verdict: on base times of 1000 ms, 2000 ms and a lost run, head
      times of 1500 ms do not count as slower than the reported 1000 ms, whatever
      the noise. */
  lemma {:induction false} SlowerHeadIsMissed(m: Maths, key: string, sigma: Option<real>, k: real)
    requires Lawful(m)
    ensures var head := [Fin(m.log(1500.0)), Fin(m.log(1500.0)), Fin(m.log(1500.0))];
            var base := [Fin(m.log(1000.0)), Fin(m.log(2000.0)), Never];
            && BaseShown(base) && BaseShown(head) && Documented(m, Center(head), BaseTime(m, base))
            && JudgeClick(m, key, base, head, sigma, k) == Judged(key, 1000.0, Some(1500.0), false)
  {
    var fast, slow, now := m.log(1000.0), m.log(2000.0), m.log(1500.0);
    var base, head := [Fin(fast), Fin(slow), Never], [Fin(now), Fin(now), Fin(now)];
    LostBaseRunShiftsTheBase(m, fast, slow);
    MedianIsMember(head);
    ExpOfLog(m, 1000.0);
    ExpOfLog(m, 1500.0);
    LimitsPositive(1000.0);
    RatioPlus(1000.0, ClickLimit(1000.0));
    LogCompare(m, 1500.0, 1000.0, 1.0 + Ratio(ClickLimit(1000.0), 1000.0));
    assert now < slow;
  }

  lemma LimitIsBoth(h: real, t: real)
    ensures h > t + ClickLimit(t) <==> h > t + 0.1 * t && h > t + 30.0
    ensures t > 0.0 ==> (h > t + ServerLimit(t) <==> h > t + 0.1 * t && (t < 1.0 ==> h > t + 1.0))
  {
  }

  /** A server route's rule on median times. */
  predicate ServerSlower(m: Maths, headTime: real, baseTime: real, error: real, k: real) {
    m.log(Ratio(headTime, baseTime)) > Max(Floor(m, ServerLimit(baseTime), baseTime), k * error)
  }

  /** Its verdict with a finite error; an infinite head median exceeds any limit. */
  predicate ServerRegressed(m: Maths, base: seq<Value>, head: seq<Value>, error: real, k: real)
    requires BaseShown(base)
  {
    !BaseShown(head) || ServerSlower(m, m.exp(Center(head)), m.exp(Center(base)), error, k)
  }

  /** Without noise a route regresses exactly when its head median exceeds the
      base median by more than 10%, and by more than 1 ms when that is under 1 ms. */
  lemma DocumentedServerRule(m: Maths, base: real, head: real, k: real)
    requires Lawful(m)
    ensures var b, h := m.exp(base), m.exp(head);
            ServerSlower(m, h, b, 0.0, k) <==> h > b + 0.1 * b && (b < 1.0 ==> h > b + 1.0)
  {
    var b, h := m.exp(base), m.exp(head);
    assert m.log(Ratio(h, b)) == head - base;
    FloorInTimes(m, head, base, ServerLimit(b)) by { LimitsPositive(b); }
    LimitIsBoth(h, b);
    assert k * 0.0 == 0.0;
  }
}
