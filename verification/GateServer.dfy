/** Judging the server routes (the server part of `compare` in
    scripts/perf/gate.ts): each route with its own spread. */
module GateServer {
  import opened Text
  import opened Sorting
  import opened GateStats
  import opened Gate
  import opened GateCompare

  /** A judged route. A time that is not positive counts as infinite; `regressed`
      is none when that leaves the spread, and so the verdict, to the order in
      which the engine sorts what is not a number. */
  datatype Route = Route(key: string, regressed: Option<bool>)

  function RouteKeys(judged: seq<Route>): seq<string> {
    seq(|judged|, i requires 0 <= i < |judged| => judged[i].key)
  }

  // ── The spread of times that may be infinite ──────────────────────────

  /** The difference of two log times: none (NaN) for two infinite ones. */
  const VALUE_DISTANCE := (a: Value, b: Value) =>
    if a.Never? && b.Never? then None else if a.Never? || b.Never? then Some(Never) else Some(Fin(DISTANCE(a.r, b.r)))

  function RouteDistances(base: seq<Value>, head: seq<Value>): seq<Option<Value>> {
    PairDistances(VALUE_DISTANCE, base) + PairDistances(VALUE_DISTANCE, head)
  }

  /** What `pooledSpread` gives: NaN, from too few differences or from NaN alone; a
      number; infinity; or what is left to the order in which the engine sorts NaN. */
  datatype Noise = Unknown | Known(sigma: real) | Unbounded | Unsettled

  function Numbers(differences: seq<Option<Value>>): seq<Value>
    requires None !in differences
  {
    seq(|differences|, i requires 0 <= i < |differences| => assert differences[i] in differences; differences[i].value)
  }

  predicate AllNaN(differences: seq<Option<Value>>) { forall d :: d in differences ==> d.None? }

  function NoiseOf(differences: seq<Option<Value>>): Noise {
    if |differences| < 3 || AllNaN(differences) then Unknown
    else if None in differences then Unsettled
    else
      match Median(Numbers(differences))
      case Some(Fin(r)) => Known(r / SCALE)
      case _ => Unbounded
  }

  function RouteNoise(base: seq<Value>, head: seq<Value>): Noise { NoiseOf(RouteDistances(base, head)) }

  /** `pooledSpread` on the log times of a route. */
  method FindNoise(base: seq<Value>, head: seq<Value>) returns (noise: Noise)
    ensures noise == RouteNoise(base, head)
  {
    var differences := PushPairs(VALUE_DISTANCE, base, []);
    differences := PushPairs(VALUE_DISTANCE, head, differences);
    assert [] + PairDistances(VALUE_DISTANCE, base) + PairDistances(VALUE_DISTANCE, head) == RouteDistances(base, head);
    return NoiseOf(differences);
  }

  lemma {:induction false} FromLost(x: Value, s: seq<Value>)
    ensures None in DistancesFrom(VALUE_DISTANCE, x, s) <==> x.Never? && Lost(s) >= 1
  {
    if s != [] { FromLost(x, s[1..]); }
  }

  lemma {:induction false} PairsLost(s: seq<Value>)
    ensures None in PairDistances(VALUE_DISTANCE, s) <==> Lost(s) >= 2
  {
    if s != [] {
      FromLost(s[0], s[1..]);
      PairsLost(s[1..]);
    }
  }

  lemma {:induction false} FromAllLost(x: Value, s: seq<Value>)
    ensures AllNaN(DistancesFrom(VALUE_DISTANCE, x, s)) <==> s == [] || (x.Never? && Lost(s) == |s|)
  {
    if s != [] {
      FromAllLost(x, s[1..]);
      LostCounts(s[1..]);
      var first := VALUE_DISTANCE(x, s[0]);
      assert first in [first];
      AllNaNConcat([first], DistancesFrom(VALUE_DISTANCE, x, s[1..]));
    }
  }

  lemma AllNaNConcat(a: seq<Option<Value>>, b: seq<Option<Value>>)
    ensures AllNaN(a + b) <==> AllNaN(a) && AllNaN(b)
  {
    assert forall d :: d in a + b <==> d in a || d in b;
  }

  /** All the times of a side are infinite, or there is only one. */
  predicate NoDistance(s: seq<Value>) { |s| <= 1 || Lost(s) == |s| }

  lemma {:induction false} PairsAllLost(s: seq<Value>)
    ensures AllNaN(PairDistances(VALUE_DISTANCE, s)) <==> NoDistance(s)
  {
    if s != [] {
      FromAllLost(s[0], s[1..]);
      PairsAllLost(s[1..]);
      LostCounts(s[1..]);
      AllNaNConcat(DistancesFrom(VALUE_DISTANCE, s[0], s[1..]), PairDistances(VALUE_DISTANCE, s[1..]));
    }
  }

  /** The order of sorting matters exactly when there are three differences, a side
      has two times that are not positive, and not every difference is of two such. */
  lemma UnsettledIff(base: seq<Value>, head: seq<Value>)
    ensures RouteNoise(base, head).Unsettled? <==>
            && Triangle(|base|) + Triangle(|head|) >= 3
            && (Lost(base) >= 2 || Lost(head) >= 2)
            && !(NoDistance(base) && NoDistance(head))
  {
    PairsAllLost(base);
    PairsAllLost(head);
    AllNaNConcat(PairDistances(VALUE_DISTANCE, base), PairDistances(VALUE_DISTANCE, head));
    PairCount(VALUE_DISTANCE, base);
    PairCount(VALUE_DISTANCE, head);
    PairsLost(base);
    PairsLost(head);
  }

  // ── The verdict ───────────────────────────────────────────────────────

  /** With an infinite base median the limit is not a number, which nothing
      exceeds; an infinite spread makes the limit infinite unless `k` is negative. */
  function RouteVerdict(m: Maths, base: seq<Value>, head: seq<Value>, k: real): Option<bool>
    requires base != [] && head != []
  {
    if !BaseShown(base) then Some(false)
    else
      match RouteNoise(base, head)
      case Unsettled => None
      case Unknown => Some(ServerRegressed(m, base, head, 0.0, k))
      case Known(sigma) => Some(ServerRegressed(m, base, head, ChangeError(m, Some(sigma), |base|, |head|), k))
      case Unbounded => Some(k < 0.0 && ServerRegressed(m, base, head, 0.0, 0.0))
  }

  /** A route has a verdict exactly when most of its base times are not positive, or
      there are fewer than three differences, or no side has two such times, or
      there is one base time and all the head's are such. */
  lemma VerdictIff(m: Maths, base: seq<Value>, head: seq<Value>, k: real)
    requires base != [] && head != []
    ensures RouteVerdict(m, base, head, k).Some? <==>
            || 2 * Lost(base) > |base|
            || Triangle(|base|) + Triangle(|head|) < 3
            || (Lost(base) <= 1 && Lost(head) <= 1)
            || (|base| == 1 && Lost(head) == |head|)
  {
    UnsettledIff(base, head);
    MedianLostIff(base);
    MedianIsMember(base);
  }

  function JudgeRoute(m: Maths, base: seq<Run>, head: seq<Run>, key: string, k: real): Route
    requires Logs(m, base, key) != [] && Logs(m, head, key) != []
  {
    Route(key, RouteVerdict(m, Logs(m, base, key), Logs(m, head, key), k))
  }

  lemma PairedRan(m: Maths, base: seq<Run>, head: seq<Run>, key: string)
    requires key in AllKeys(base) + AllKeys(head) && PairingOf(base, head, key) == Paired
    ensures Logs(m, base, key) != [] && Logs(m, head, key) != []
  {
    LogsCount(m, base, key);
    LogsCount(m, head, key);
  }

  /** The server part of `compare`: a paired route always has runs on both sides,
      so none is skipped. Every route of either side ends in exactly one list,
      once, and a judged one has the verdict its runs call for. */
  method CompareServer(m: Maths, base: seq<Run>, head: seq<Run>, k: real)
    returns (judged: seq<Route>, headOnly: seq<string>, incomplete: seq<string>)
    ensures Splits(RouteKeys(judged), headOnly, incomplete, multiset(AllKeys(base) + AllKeys(head)))
    ensures forall r :: r in judged ==>
              && PairingOf(base, head, r.key) == Paired
              && Logs(m, base, r.key) != [] && Logs(m, head, r.key) != []
              && r == JudgeRoute(m, base, head, r.key, k)
    ensures forall key :: key in headOnly ==> PairingOf(base, head, key) == HeadOnly
    ensures forall key :: key in incomplete ==> PairingOf(base, head, key) == Incomplete
  {
    var keys;
    keys, headOnly, incomplete := PairKeys(base, head);
    PairedAreKeys(base, head, keys, headOnly, incomplete);
    judged := [];
    for n := 0 to |keys|
      invariant RouteKeys(judged) == keys[..n]
      invariant forall r :: r in judged ==>
                  && PairingOf(base, head, r.key) == Paired
                  && Logs(m, base, r.key) != [] && Logs(m, head, r.key) != []
                  && r == JudgeRoute(m, base, head, r.key, k)
    {
      var key := keys[n];
      assert key in keys;
      PairedRan(m, base, head, key);
      ghost var before := judged;
      judged := judged + [JudgeRoute(m, base, head, key, k)];
      assert RouteKeys(judged) == RouteKeys(before) + [key];
    }
    assert keys[..|keys|] == keys;
  }

  lemma {:induction false} NumbersPermute(s: seq<Option<Value>>, t: seq<Option<Value>>)
    requires multiset(s) == multiset(t) && None !in s && None !in t
    ensures multiset(Numbers(s)) == multiset(Numbers(t))
  {
    assert |s| == |multiset(s)| == |multiset(t)| == |t|;
    if s != [] {
      var a, b := AroundHead(s, t);
      assert s[0] in s;
      NumbersPermute(s[1..], a + b);
      assert Numbers(s) == [s[0].value] + Numbers(s[1..]);
      assert Numbers(t) == Numbers(a) + [s[0].value] + Numbers(b);
      assert Numbers(a + b) == Numbers(a) + Numbers(b);
    }
  }

  lemma {:induction false} NoiseOfPermutes(s: seq<Option<Value>>, t: seq<Option<Value>>)
    requires multiset(s) == multiset(t)
    ensures NoiseOf(s) == NoiseOf(t)
  {
    assert |s| == |multiset(s)| == |multiset(t)| == |t|;
    SameMembers(s, t);
    if None !in s {
      NumbersPermute(s, t);
      MedianPermutes(Numbers(s), Numbers(t));
    }
  }

  lemma {:induction false} NoisePermutes(b: seq<Value>, h: seq<Value>, b': seq<Value>, h': seq<Value>)
    requires multiset(b) == multiset(b') && multiset(h) == multiset(h')
    ensures RouteNoise(b, h) == RouteNoise(b', h')
  {
    PairDistancesPermute(VALUE_DISTANCE, b, b');
    PairDistancesPermute(VALUE_DISTANCE, h, h');
    NoiseOfPermutes(RouteDistances(b, h), RouteDistances(b', h'));
  }

  lemma {:induction false} VerdictPermutes(
      m: Maths, b: seq<Value>, h: seq<Value>, b': seq<Value>, h': seq<Value>, k: real)
    requires b != [] && h != [] && multiset(b) == multiset(b') && multiset(h) == multiset(h')
    ensures b' != [] && h' != [] && RouteVerdict(m, b, h, k) == RouteVerdict(m, b', h', k)
  {
    assert |b| == |multiset(b)| == |multiset(b')| == |b'|;
    assert |h| == |multiset(h)| == |multiset(h')| == |h'|;
    NoisePermutes(b, h, b', h');
    MedianPermutes(b, b');
    MedianPermutes(h, h');
  }

  /** A route's verdict does not depend on the order in which the runs are read. */
  lemma {:induction false} RouteIgnoresOrder(
      m: Maths, base: seq<Run>, head: seq<Run>, base': seq<Run>, head': seq<Run>, key: string, k: real)
    requires multiset(base) == multiset(base') && multiset(head) == multiset(head')
    requires Logs(m, base, key) != [] && Logs(m, head, key) != []
    ensures Logs(m, base', key) != [] && Logs(m, head', key) != []
    ensures JudgeRoute(m, base, head, key, k) == JudgeRoute(m, base', head', key, k)
  {
    LogsPermute(m, base, base', key);
    LogsPermute(m, head, head', key);
    VerdictPermutes(m, Logs(m, base, key), Logs(m, head, key), Logs(m, base', key), Logs(m, head', key), k);
  }

  lemma ServerSlowerMonotone(m: Maths, h: real, b: real, error: real, k: real, k': real)
    requires k <= k' && error >= 0.0
    ensures ServerSlower(m, h, b, error, k') ==> ServerSlower(m, h, b, error, k)
  {
    var gap := k' - k;
    assert gap * error >= 0.0 && k' * error == k * error + gap * error;
  }

  /** Raising `k` never adds a regressed route. */
  lemma {:induction false} HigherKIsStricterForRoutes(m: Maths, base: seq<Value>, head: seq<Value>, k: real, k': real)
    requires Lawful(m) && k <= k' && base != [] && head != []
    ensures RouteVerdict(m, base, head, k') == Some(true) ==> RouteVerdict(m, base, head, k) == Some(true)
  {
    if BaseShown(base) && BaseShown(head) {
      var noise := RouteNoise(base, head);
      var error := if noise.Known? then ChangeError(m, Some(noise.sigma), |base|, |head|) else 0.0;
      if noise.Known? { ErrorPositive(m, Some(noise.sigma), |base|, |head|); }
      ServerSlowerMonotone(m, m.exp(Center(head)), m.exp(Center(base)), error, k, k');
    }
  }

  /** On one run a side, a route regresses exactly when it got slower by more than
      10%, and by more than 1 ms when the base is under 1 ms; and when the head took
      no positive time. */
  lemma {:induction false} SingleRunRule(m: Maths, base: real, head: real, k: real)
    requires Lawful(m) && base > 0.0 && head > 0.0
    ensures RouteVerdict(m, [Fin(m.log(base))], [Fin(m.log(head))], k) ==
            Some(head > base + 0.1 * base && (base < 1.0 ==> head > base + 1.0))
    ensures RouteVerdict(m, [Fin(m.log(base))], [Never], k) == Some(true)
  {
    var b, h := m.log(base), m.log(head);
    SingleValue(b);
    SingleValue(h);
    assert Wrap([b]) == [Fin(b)] && Wrap([h]) == [Fin(h)];
    PairCount(VALUE_DISTANCE, [Fin(b)]);
    PairCount(VALUE_DISTANCE, [Fin(h)]);
    PairCount(VALUE_DISTANCE, [Never]);
    assert Triangle(1) == 0;
    MedianIsMember([Never]);
    ExpOfLog(m, base);
    ExpOfLog(m, head);
    DocumentedServerRule(m, b, h, k);
  }

  lemma {:induction false} PositivePairs(s: seq<Value>)
    requires Lost(s) == 0
    ensures None !in PairDistances(VALUE_DISTANCE, s)
    ensures Numbers(PairDistances(VALUE_DISTANCE, s)) == Wrap(PairDistances(DISTANCE, Finite(s)))
  {
    PairsLost(s);
    if s != [] {
      PositivePairs(s[1..]);
      PositiveFrom(s[0], s[1..]);
      var row, rest := DistancesFrom(VALUE_DISTANCE, s[0], s[1..]), PairDistances(VALUE_DISTANCE, s[1..]);
      assert Numbers(row + rest) == Numbers(row) + Numbers(rest);
      assert Finite(s)[0] == s[0].r && Finite(s)[1..] == Finite(s[1..]);
    }
  }

  lemma {:induction false} PositiveFrom(x: Value, s: seq<Value>)
    requires x.Fin? && Lost(s) == 0
    ensures None !in DistancesFrom(VALUE_DISTANCE, x, s)
    ensures Numbers(DistancesFrom(VALUE_DISTANCE, x, s)) == Wrap(DistancesFrom(DISTANCE, x.r, Finite(s)))
  {
    FromLost(x, s);
    if s != [] {
      PositiveFrom(x, s[1..]);
      assert Finite(s)[0] == s[0].r && Finite(s)[1..] == Finite(s[1..]);
      WrapHead(DISTANCE(x.r, s[0].r), DistancesFrom(DISTANCE, x.r, Finite(s[1..])));
    }
  }

  function AsNoise(spread: Option<real>): Noise { match spread case None => Unknown case Some(sigma) => Known(sigma) }

  lemma NoiseOfPositive(d: seq<Option<Value>>, x: seq<real>)
    requires None !in d && Numbers(d) == Wrap(x)
    ensures NoiseOf(d) == AsNoise(SpreadOf(x))
  {
    assert |d| == |Numbers(d)| == |x|;
    if |x| >= 3 {
      assert d[0] in d;
      MedianIsMember(Wrap(x));
      assert forall i :: 0 <= i < |Wrap(x)| ==> Wrap(x)[i].Fin?;
    }
  }

  lemma NumbersConcat(a: seq<Option<Value>>, b: seq<Option<Value>>, x: seq<real>, y: seq<real>)
    requires None !in a && None !in b && Numbers(a) == Wrap(x) && Numbers(b) == Wrap(y)
    ensures None !in a + b && Numbers(a + b) == Wrap(x + y)
  {
    assert Numbers(a + b) == Numbers(a) + Numbers(b);
    assert Wrap(x + y) == Wrap(x) + Wrap(y);
  }

  lemma TwoGroups(x: seq<real>, y: seq<real>)
    ensures AllDistances([x, y]) == PairDistances(DISTANCE, x) + PairDistances(DISTANCE, y)
  {
    assert [x, y][1..] == [y] && [y][1..] == [];
    assert AllDistances([y]) == PairDistances(DISTANCE, y);
  }

  /** On times that are all positive this is the spread that journeys have. */
  lemma PositiveNoise(base: seq<Value>, head: seq<Value>)
    requires Lost(base) == 0 && Lost(head) == 0
    ensures RouteNoise(base, head) == AsNoise(Spread([Finite(base), Finite(head)]))
  {
    PositivePairs(base);
    PositivePairs(head);
    TwoGroups(Finite(base), Finite(head));
    var x, y := PairDistances(DISTANCE, Finite(base)), PairDistances(DISTANCE, Finite(head));
    NumbersConcat(PairDistances(VALUE_DISTANCE, base), PairDistances(VALUE_DISTANCE, head), x, y);
    NoiseOfPositive(RouteDistances(base, head), x + y);
  }

  /** A route whose base took no positive time in most of its runs never
      regresses, however slow the head is. */
  lemma {:induction false} LostBaseNeverRegresses(m: Maths, base: seq<Value>, head: seq<Value>, k: real)
    requires head != [] && 2 * Lost(base) > |base|
    ensures base != [] && RouteVerdict(m, base, head, k) == Some(false)
  {
    LostCounts(base);
    MedianLostIff(base);
  }

  // ── Noise without bound ───────────────────────────────────────────────

  lemma LostAppended(a: seq<Option<Value>>, b: seq<Option<Value>>)
    requires None !in a && None !in b
    ensures None !in a + b && Lost(Numbers(a + b)) == Lost(Numbers(a)) + Lost(Numbers(b))
  {
    assert Numbers(a + b) == Numbers(a) + Numbers(b);
    LostCounts(Numbers(a));
    LostCounts(Numbers(b));
    LostCounts(Numbers(a + b));
  }

  lemma {:induction false} LostFrom(x: Value, s: seq<Value>)
    requires x.Fin? || Lost(s) == 0
    ensures None !in DistancesFrom(VALUE_DISTANCE, x, s)
    ensures Lost(Numbers(DistancesFrom(VALUE_DISTANCE, x, s))) == if x.Never? then |s| else Lost(s)
  {
    FromLost(x, s);
    if s != [] {
      LostFrom(x, s[1..]);
      var first := [VALUE_DISTANCE(x, s[0])];
      LostAppended(first, DistancesFrom(VALUE_DISTANCE, x, s[1..]));
      assert Numbers(first)[1..] == [];
    }
  }

  /** With one infinite time a side has as many infinite differences as others. */
  lemma {:induction false} LostPairs(s: seq<Value>)
    requires Lost(s) <= 1
    ensures None !in PairDistances(VALUE_DISTANCE, s)
    ensures Lost(Numbers(PairDistances(VALUE_DISTANCE, s))) == if Lost(s) == 1 then |s| - 1 else 0
  {
    PairsLost(s);
    if s != [] {
      LostPairs(s[1..]);
      LostFrom(s[0], s[1..]);
      LostAppended(DistancesFrom(VALUE_DISTANCE, s[0], s[1..]), PairDistances(VALUE_DISTANCE, s[1..]));
    }
  }

  function InfinitePairs(s: seq<Value>): nat { if Lost(s) == 1 && s != [] then |s| - 1 else 0 }

  /** With at most one infinite time a side, the spread is infinite exactly when
      there are three differences and most of them are with such a time. */
  lemma UnboundedIff(base: seq<Value>, head: seq<Value>)
    requires Lost(base) <= 1 && Lost(head) <= 1
    ensures RouteNoise(base, head).Unbounded? <==>
            && Triangle(|base|) + Triangle(|head|) >= 3
            && 2 * (InfinitePairs(base) + InfinitePairs(head)) > Triangle(|base|) + Triangle(|head|)
  {
    var d := RouteDistances(base, head);
    PairCount(VALUE_DISTANCE, base);
    PairCount(VALUE_DISTANCE, head);
    LostPairs(base);
    LostPairs(head);
    LostAppended(PairDistances(VALUE_DISTANCE, base), PairDistances(VALUE_DISTANCE, head));
    if |d| >= 3 { UnboundedNumbers(d); }
  }

  lemma UnboundedNumbers(d: seq<Option<Value>>)
    requires None !in d && |d| >= 3
    ensures NoiseOf(d).Unbounded? <==> 2 * Lost(Numbers(d)) > |d|
  {
    assert d[0] in d;
    MedianLostIff(Numbers(d));
    MedianIsMember(Numbers(d));
  }

  /** Nothing exceeds such noise, not even a head without a positive time; for a
      negative `k` the rule is the one without noise. */
  lemma {:induction false} UnboundedRule(m: Maths, base: seq<Value>, head: seq<Value>, k: real)
    requires Lawful(m) && BaseShown(base) && head != [] && RouteNoise(base, head).Unbounded?
    ensures k >= 0.0 ==> RouteVerdict(m, base, head, k) == Some(false)
    ensures k < 0.0 && !BaseShown(head) ==> RouteVerdict(m, base, head, k) == Some(true)
    ensures k < 0.0 && BaseShown(head) ==>
              var b, h := m.exp(Center(base)), m.exp(Center(head));
              RouteVerdict(m, base, head, k) == Some(h > b + 0.1 * b && (b < 1.0 ==> h > b + 1.0))
  {
    if BaseShown(head) { DocumentedServerRule(m, Center(base), Center(head), 0.0); }
  }
}
