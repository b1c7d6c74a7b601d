/** Pairing the runs of the two sides and judging every key
    (`compare` in scripts/perf/gate.ts). */
module GateCompare {
  import opened Text
  import opened Sorting
  import opened GateStats
  import opened Gate

  // ── Timed runs ────────────────────────────────────────────────────────

  /** One recorded click; `key` is its network, pass and journey. */
  datatype Click = Click(pass: string, key: string, round: nat, contentMs: Option<real>)

  predicate Timed(c: Click) { c.pass != "churn" && c.pass != "backup" }

  predicate Of(c: Click, r: nat, key: string) { Timed(c) && c.round == r && c.key == key }

  /** The time that the last timed click of `key` in round `r` recorded. */
  function TimeOf(clicks: seq<Click>, r: nat, key: string): Option<Option<real>> {
    if clicks == [] then None
    else
      var last := clicks[|clicks| - 1];
      if Of(last, r, key) then Some(last.contentMs) else TimeOf(clicks[..|clicks| - 1], r, key)
  }

  /** It is the time of the one timed click of the key that none follows. */
  lemma {:induction false} TimeOfLast(clicks: seq<Click>, r: nat, key: string, i: nat)
    requires i < |clicks| && Of(clicks[i], r, key) && forall j :: i < j < |clicks| ==> !Of(clicks[j], r, key)
    ensures TimeOf(clicks, r, key) == Some(clicks[i].contentMs)
  {
    if i < |clicks| - 1 { TimeOfLast(clicks[..|clicks| - 1], r, key, i); }
  }

  function RunTime(run: Run, key: string): Option<Option<real>> { if key in run then Some(run[key]) else None }

  /** The rounds that have a timed click, each with its keys and their times. */
  ghost predicate IsRounds(clicks: seq<Click>, rounds: map<nat, Run>) {
    && (forall r: nat, key :: TimeOf(clicks, r, key) == if r in rounds then RunTime(rounds[r], key) else None)
    && (forall r :: r in rounds ==> exists key :: key in rounds[r])
  }

  /** The rounds of one result file: a round has exactly the keys with a timed
      click in it, with the time of the last one; churn and backup clicks are not
      timed. */
  method Rounds(clicks: seq<Click>) returns (rounds: map<nat, Run>)
    ensures IsRounds(clicks, rounds)
  {
    rounds := map[];
    for n := 0 to |clicks|
      invariant IsRounds(clicks[..n], rounds)
    {
      var c := clicks[n];
      ghost var before := rounds;
      assert clicks[..n + 1][..n] == clicks[..n];
      if Timed(c) {
        var values := if c.round in rounds then rounds[c.round] else map[];
        rounds := rounds[c.round := values[c.key := c.contentMs]];
        assert c.key in rounds[c.round];
      }
      forall r, key ensures TimeOf(clicks[..n + 1], r, key) == if r in rounds then RunTime(rounds[r], key) else None {
        assert TimeOf(clicks[..n], r, key) == if r in before then RunTime(before[r], key) else None;
      }
    }
    assert clicks[..|clicks|] == clicks;
  }

  /** The runs of a side: one for each result file and round with a timed click. */
  ghost predicate AreRuns(results: seq<seq<Click>>, runs: seq<Run>, order: seq<(nat, nat)>) {
    && |order| == |runs| && Distinct(order)
    && (forall n :: 0 <= n < |order| ==> order[n].0 < |results|)
    && (forall n, key :: 0 <= n < |runs| ==> RunTime(runs[n], key) == TimeOf(results[order[n].0], order[n].1, key))
    && (forall f: nat, r: nat, key :: f < |results| && TimeOf(results[f], r, key).Some? ==> (f, r) in order)
  }

  /** `clickRuns`. */
  method ClickRuns(results: seq<seq<Click>>) returns (runs: seq<Run>)
    ensures exists order :: AreRuns(results, runs, order)
    ensures AllKeys(runs) == TimedKeys(results)
  {
    runs := [];
    ghost var order: seq<(nat, nat)> := [];
    for f := 0 to |results|
      invariant AreRuns(results[..f], runs, order)
    {
      var rounds := Rounds(results[f]);
      runs, order := AddRounds(results, f, rounds, runs, order);
    }
    assert results[..|results|] == results;
    RunsHaveTimedKeys(results, runs, order);
  }

  /** The runs of one more result file. */
  method AddRounds(
      results: seq<seq<Click>>, f: nat, rounds: map<nat, Run>, before: seq<Run>,
      ghost orderBefore: seq<(nat, nat)>)
    returns (runs: seq<Run>, ghost order: seq<(nat, nat)>)
    requires f < |results| && AreRuns(results[..f], before, orderBefore) && IsRounds(results[f], rounds)
    ensures AreRuns(results[..f + 1], runs, order)
  {
    runs, order := before, orderBefore;
    var todo := rounds.Keys;
    while todo != {}
      invariant todo <= rounds.Keys
      invariant |order| == |runs| && orderBefore <= order && before <= runs
      invariant Distinct(order)
      invariant forall n :: |before| <= n < |order| ==>
                  order[n].0 == f && order[n].1 in rounds.Keys - todo && runs[n] == rounds[order[n].1]
      invariant forall r :: r in rounds.Keys - todo ==> (f, r) in order
    {
      var r :| r in todo;
      forall n | 0 <= n < |order| ensures order[n] != (f, r) {
        if n < |before| { assert order[n] == orderBefore[n]; }
      }
      runs, order := runs + [rounds[r]], order + [(f, r)];
      todo := todo - {r};
    }
    RoundsAdded(results, f, rounds, before, orderBefore, runs, order);
  }

  lemma RoundsAdded(results: seq<seq<Click>>, f: nat, rounds: map<nat, Run>,
                    before: seq<Run>, orderBefore: seq<(nat, nat)>, runs: seq<Run>, order: seq<(nat, nat)>)
    requires f < |results| && AreRuns(results[..f], before, orderBefore) && IsRounds(results[f], rounds)
    requires |order| == |runs| && orderBefore <= order && before <= runs && Distinct(order)
    requires forall n :: |before| <= n < |order| ==>
               order[n].0 == f && order[n].1 in rounds && runs[n] == rounds[order[n].1]
    requires forall r :: r in rounds ==> (f, r) in order
    ensures AreRuns(results[..f + 1], runs, order)
  {
    var longer := results[..f + 1];
    assert longer[f] == results[f] && forall g :: 0 <= g < f ==> longer[g] == results[..f][g];
    forall n | 0 <= n < |order|
      ensures order[n].0 < |longer|
      ensures forall key :: RunTime(runs[n], key) == TimeOf(longer[order[n].0], order[n].1, key)
    {
      if n < |before| { assert order[n] == orderBefore[n] && runs[n] == before[n]; }
    }
    forall g: nat, r: nat, key | g < |longer| && TimeOf(longer[g], r, key).Some? ensures (g, r) in order {
      if g < f { assert (g, r) in orderBefore; }
    }
  }

  /** The keys with a click that is neither of a churn nor of a backup pass. */
  function TimedKeys(results: seq<seq<Click>>): set<string> {
    set f, i | 0 <= f < |results| && 0 <= i < |results[f]| && results[f][i].pass !in {"churn", "backup"} ::
      results[f][i].key
  }

  lemma {:induction false} RecordedHasTime(clicks: seq<Click>, i: nat)
    requires i < |clicks| && Timed(clicks[i])
    ensures TimeOf(clicks, clicks[i].round, clicks[i].key).Some?
  {
    if i < |clicks| - 1 { RecordedHasTime(clicks[..|clicks| - 1], i); }
  }

  lemma {:induction false} TimeIsRecorded(clicks: seq<Click>, r: nat, key: string) returns (i: nat)
    requires TimeOf(clicks, r, key).Some?
    ensures i < |clicks| && Of(clicks[i], r, key)
  {
    i := |clicks| - 1;
    if !Of(clicks[i], r, key) { i := TimeIsRecorded(clicks[..|clicks| - 1], r, key); }
  }

  lemma {:induction false} KeyInRuns(runs: seq<Run>, key: string)
    ensures key in AllKeys(runs) <==> exists n :: 0 <= n < |runs| && key in runs[n]
  {
    if runs != [] {
      KeyInRuns(runs[1..], key);
      if key in AllKeys(runs[1..]) {
        var n :| 0 <= n < |runs[1..]| && key in runs[1..][n];
        assert key in runs[n + 1];
      }
      if n :| 0 < n < |runs| && key in runs[n] { assert key in runs[1..][n - 1]; }
    }
  }

  /** The runs have exactly the keys with a timed click. */
  lemma RunsHaveTimedKeys(results: seq<seq<Click>>, runs: seq<Run>, order: seq<(nat, nat)>)
    requires AreRuns(results, runs, order)
    ensures AllKeys(runs) == TimedKeys(results)
  {
    forall key ensures key in AllKeys(runs) <==> key in TimedKeys(results) {
      KeyInRuns(runs, key);
      if n :| 0 <= n < |runs| && key in runs[n] {
        assert RunTime(runs[n], key).Some?;
        var i := TimeIsRecorded(results[order[n].0], order[n].1, key);
      }
      if key in TimedKeys(results) {
        var f, i :| 0 <= f < |results| && 0 <= i < |results[f]| && Timed(results[f][i]) && results[f][i].key == key;
        RecordedHasTime(results[f], i);
        assert (f, results[f][i].round) in order;
        var n :| 0 <= n < |order| && order[n] == (f, results[f][i].round);
        assert RunTime(runs[n], key).Some?;
      }
    }
  }

  // ── Pairing keys ──────────────────────────────────────────────────────

  /** How many runs of a side have each key. */
  method Coverage(runs: seq<Run>) returns (counts: map<string, nat>)
    ensures counts.Keys == AllKeys(runs)
    ensures forall key :: key in counts ==> counts[key] == Count(runs, key)
  {
    counts := map[];
    for n := 0 to |runs|
      invariant counts.Keys == AllKeys(runs[..n])
      invariant forall key :: key in counts ==> counts[key] == Count(runs[..n], key)
    {
      ghost var before := counts;
      var left := runs[n].Keys;
      while left != {}
        invariant left <= runs[n].Keys
        invariant counts.Keys == before.Keys + (runs[n].Keys - left)
        invariant forall key :: key in counts ==>
                    counts[key] ==
                    (if key in before then before[key] else 0) + if key in runs[n].Keys - left then 1 else 0
      {
        var key :| key in left;
        counts := counts[key := (if key in counts then counts[key] else 0) + 1];
        left := left - {key};
      }
      CoverageStep(runs, n);
      forall key | key in counts ensures counts[key] == Count(runs[..n + 1], key) {
        CountAppend(runs[..n], runs[n], key);
        CountKeys(runs[..n], key);
        assert runs[..n + 1] == runs[..n] + [runs[n]];
      }
    }
    assert runs[..|runs|] == runs;
  }

  lemma {:induction false} CountAppend(runs: seq<Run>, run: Run, key: string)
    ensures Count(runs + [run], key) == Count(runs, key) + if key in run then 1 else 0
  {
    if runs == [] {
      assert runs + [run] == [run] && [run][1..] == [];
    } else {
      assert (runs + [run])[1..] == runs[1..] + [run];
      CountAppend(runs[1..], run, key);
    }
  }

  lemma {:induction false} CountKeys(runs: seq<Run>, key: string)
    ensures Count(runs, key) > 0 <==> key in AllKeys(runs)
    ensures Count(runs, key) <= |runs|
  {
    if runs != [] { CountKeys(runs[1..], key); }
  }

  lemma {:induction false} KeysAppend(runs: seq<Run>, run: Run)
    ensures AllKeys(runs + [run]) == AllKeys(runs) + run.Keys
  {
    if runs == [] {
      assert runs + [run] == [run] && [run][1..] == [];
    } else {
      assert (runs + [run])[1..] == runs[1..] + [run];
      KeysAppend(runs[1..], run);
    }
  }

  lemma CoverageStep(runs: seq<Run>, n: nat)
    requires n < |runs|
    ensures AllKeys(runs[..n + 1]) == AllKeys(runs[..n]) + runs[n].Keys
  {
    assert runs[..n + 1] == runs[..n] + [runs[n]];
    KeysAppend(runs[..n], runs[n]);
  }

  datatype Pairing = Paired | HeadOnly | Incomplete

  /** A key is compared when both sides have it in as many runs; one that only
      every run of the head has is noted. */
  function PairingOf(left: seq<Run>, right: seq<Run>, key: string): Pairing {
    var l, r := Count(left, key), Count(right, key);
    if l == 0 && r == |right| then HeadOnly else if l != r then Incomplete else Paired
  }

  /** Each key of either side lands in exactly one of the three lists, once. */
  method PairKeys(left: seq<Run>, right: seq<Run>)
    returns (keys: seq<string>, headOnly: seq<string>, incomplete: seq<string>)
    ensures multiset(keys) + multiset(headOnly) + multiset(incomplete) == multiset(AllKeys(left) + AllKeys(right))
    ensures forall key :: key in keys ==> PairingOf(left, right, key) == Paired
    ensures forall key :: key in headOnly ==> PairingOf(left, right, key) == HeadOnly
    ensures forall key :: key in incomplete ==> PairingOf(left, right, key) == Incomplete
  {
    keys, headOnly, incomplete := [], [], [];
    var leftKeys := Coverage(left);
    var rightKeys := Coverage(right);
    var todo := leftKeys.Keys + rightKeys.Keys;
    while todo != {}
      invariant todo <= AllKeys(left) + AllKeys(right)
      invariant multiset(keys) + multiset(headOnly) + multiset(incomplete) + multiset(todo) ==
                multiset(AllKeys(left) + AllKeys(right))
      invariant forall key :: key in keys ==> PairingOf(left, right, key) == Paired
      invariant forall key :: key in headOnly ==> PairingOf(left, right, key) == HeadOnly
      invariant forall key :: key in incomplete ==> PairingOf(left, right, key) == Incomplete
    {
      var key :| key in todo;
      CountKeys(left, key);
      CountKeys(right, key);
      var l := if key in leftKeys then leftKeys[key] else 0;
      var r := if key in rightKeys then rightKeys[key] else 0;
      if l == 0 && r == |right| { headOnly := headOnly + [key]; }
      else if l != r { incomplete := incomplete + [key]; }
      else { keys := keys + [key]; }
      assert multiset(todo) == multiset(todo - {key}) + multiset{key};
      todo := todo - {key};
    }
  }

  /** The runs that have a key. */
  function Having(runs: seq<Run>, key: string): set<int> { set n | 0 <= n < |runs| && key in runs[n] }

  lemma {:induction false} CountIsHaving(runs: seq<Run>, key: string)
    ensures Count(runs, key) == |Having(runs, key)|
  {
    if runs != [] {
      var n := |runs| - 1;
      CountIsHaving(runs[..n], key);
      CountAppend(runs[..n], runs[n], key);
      assert runs == runs[..n] + [runs[n]];
      forall i | 0 <= i < n ensures runs[..n][i] == runs[i] { }
      assert Having(runs, key) - {n} == Having(runs[..n], key);
      assert n in Having(runs, key) <==> key in runs[n];
    }
  }

  lemma {:induction false} EveryRunHas(runs: seq<Run>, key: string)
    ensures Count(runs, key) == |runs| <==> forall n :: 0 <= n < |runs| ==> key in runs[n]
    ensures Count(runs, key) == 0 <==> forall n :: 0 <= n < |runs| ==> key !in runs[n]
  {
    if runs != [] {
      EveryRunHas(runs[1..], key);
      CountKeys(runs[1..], key);
      forall n | 0 < n < |runs| ensures runs[n] == runs[1..][n - 1] { }
    }
  }

  /** In terms of the runs: a key is noted as new exactly when no base run and every
      head run has it, and else paired exactly when as many runs of both have it. */
  lemma PairingIff(base: seq<Run>, head: seq<Run>, key: string)
    ensures PairingOf(base, head, key) == HeadOnly <==>
            && (forall n :: 0 <= n < |base| ==> key !in base[n])
            && (forall n :: 0 <= n < |head| ==> key in head[n])
    ensures PairingOf(base, head, key) == Paired <==>
            PairingOf(base, head, key) != HeadOnly && |Having(base, key)| == |Having(head, key)|
  {
    EveryRunHas(base, key);
    EveryRunHas(head, key);
    CountIsHaving(base, key);
    CountIsHaving(head, key);
  }

  /** A key's log values are those of the runs that have it, in order: the log of a
      positive time, and a lost run for none or for one that is not positive. */
  lemma {:induction false} LogsAt(m: Maths, runs: seq<Run>, key: string, n: nat)
    requires n < |runs| && key in runs[n]
    ensures |Logs(m, runs, key)| == |Having(runs, key)| > |Having(runs[..n], key)|
    ensures Logs(m, runs, key)[|Having(runs[..n], key)|] ==
            (match runs[n][key] case Some(t) => if t > 0.0 then Fin(m.log(t)) else Never case None => Never)
  {
    LogsCount(m, runs, key);
    CountIsHaving(runs, key);
    CountIsHaving(runs[..n], key);
    LogsRank(m, runs, key, n);
  }

  lemma {:induction false} LogsRank(m: Maths, runs: seq<Run>, key: string, n: nat)
    requires n < |runs| && key in runs[n]
    ensures Count(runs[..n], key) < |Logs(m, runs, key)|
    ensures Logs(m, runs, key)[Count(runs[..n], key)] == LogOf(m, runs[n][key])
  {
    if n > 0 {
      LogsRank(m, runs[1..], key, n - 1);
      assert runs[..n][1..] == runs[1..][..n - 1];
    }
  }

  // ── What becomes of a journey ─────────────────────────────────────────

  datatype Outcome = IsJudged | IsHeadOnly | IsIncomplete

  function ClickOutcome(m: Maths, base: seq<Run>, head: seq<Run>, key: string): Outcome {
    match PairingOf(base, head, key)
    case HeadOnly => IsHeadOnly
    case Incomplete => IsIncomplete
    case Paired =>
      var b, h := Logs(m, base, key), Logs(m, head, key);
      if Finite(b) == [] then (if |Finite(h)| == |h| then IsHeadOnly else IsIncomplete)
      else if Median(b) == Some(Never) then IsIncomplete
      else IsJudged
  }

  /** A journey reaches judgement exactly when both sides ran it equally often
      and the base showed its content in at least half of its runs. */
  lemma JudgedIff(m: Maths, base: seq<Run>, head: seq<Run>, key: string)
    requires key in AllKeys(base) + AllKeys(head)
    ensures ClickOutcome(m, base, head, key) == IsJudged <==>
            && Count(base, key) == Count(head, key)
            && 2 * Lost(Logs(m, base, key)) <= |Logs(m, base, key)|
    ensures ClickOutcome(m, base, head, key) == IsJudged ==>
              BaseShown(Logs(m, base, key)) && Logs(m, head, key) != []
  {
    LogsCount(m, base, key);
    LogsCount(m, head, key);
    var b := Logs(m, base, key);
    FiniteCount(b);
    if b != [] { MedianLostIff(b); }
  }

  /** The runs that estimate a group's noise. */
  function Samples(m: Maths, base: seq<Run>, head: seq<Run>, keys: seq<string>): seq<seq<real>> {
    if keys == [] then []
    else [Finite(Logs(m, base, keys[0])), Finite(Logs(m, head, keys[0]))] + Samples(m, base, head, keys[1..])
  }

  /** They are, for each key, its shown times on either side. */
  lemma {:induction false} SamplesAt(m: Maths, base: seq<Run>, head: seq<Run>, keys: seq<string>, i: nat)
    requires i < |keys|
    ensures |Samples(m, base, head, keys)| == 2 * |keys|
    ensures Samples(m, base, head, keys)[2 * i] == Finite(Logs(m, base, keys[i]))
    ensures Samples(m, base, head, keys)[2 * i + 1] == Finite(Logs(m, head, keys[i]))
  {
    SamplesCount(m, base, head, keys);
    if i > 0 { SamplesAt(m, base, head, keys[1..], i - 1); }
  }

  lemma {:induction false} SamplesCount(m: Maths, base: seq<Run>, head: seq<Run>, keys: seq<string>)
    ensures |Samples(m, base, head, keys)| == 2 * |keys|
  {
    if keys != [] { SamplesCount(m, base, head, keys[1..]); }
  }

  function GroupSigma(m: Maths, base: seq<Run>, head: seq<Run>, keys: seq<string>): Option<real> {
    Spread(Samples(m, base, head, keys))
  }

  function JudgeKey(m: Maths, base: seq<Run>, head: seq<Run>, keys: seq<string>, key: string, k: real): Judged
    requires BaseShown(Logs(m, base, key)) && Logs(m, head, key) != []
  {
    JudgeClick(m, key, Logs(m, base, key), Logs(m, head, key), GroupSigma(m, base, head, keys), k)
  }

  function KeysOf(judged: seq<Judged>): seq<string> {
    seq(|judged|, i requires 0 <= i < |judged| => judged[i].key)
  }

  predicate HasFinite(m: Maths, base: seq<Run>, key: string) { Finite(Logs(m, base, key)) != [] }

  /** The keys of a group whose base showed content at least once. */
  function Measured(m: Maths, base: seq<Run>, groupKeys: seq<string>): seq<string> {
    Filter(groupKeys, (key: string) => HasFinite(m, base, key))
  }

  /** Every key of a list has the outcome of that list. */
  predicate Lands(m: Maths, base: seq<Run>, head: seq<Run>, keys: seq<string>, o: Outcome) {
    forall key :: key in keys ==> ClickOutcome(m, base, head, key) == o
  }

  /** A verdict is the one its key's runs and its group's noise call for. */
  predicate Fair(m: Maths, base: seq<Run>, head: seq<Run>, keys: seq<string>, k: real, j: Judged) {
    && ClickOutcome(m, base, head, j.key) == IsJudged
    && BaseShown(Logs(m, base, j.key)) && Logs(m, head, j.key) != []
    && j == JudgeKey(m, base, head, keys, j.key, k)
  }

  predicate AllPaired(base: seq<Run>, head: seq<Run>, keys: seq<string>) {
    forall key :: key in keys ==> key in AllKeys(base) + AllKeys(head) && PairingOf(base, head, key) == Paired
  }

  /** Three lists that together hold `all`. */
  predicate Splits(a: seq<string>, b: seq<string>, c: seq<string>, all: multiset<string>) {
    multiset(a) + multiset(b) + multiset(c) == all
  }

  lemma SplitsGrow(a: seq<string>, b: seq<string>, c: seq<string>, keys: seq<string>, n: nat)
    requires n < |keys| && Splits(a, b, c, multiset(keys[..n]))
    ensures Splits(a + [keys[n]], b, c, multiset(keys[..n + 1]))
    ensures Splits(a, b + [keys[n]], c, multiset(keys[..n + 1]))
    ensures Splits(a, b, c + [keys[n]], multiset(keys[..n + 1]))
  {
    assert keys[..n + 1] == keys[..n] + [keys[n]];
  }

  lemma SplitsGrowFirst(a: seq<string>, b: seq<string>, c: seq<string>, keys: seq<string>, n: nat)
    requires n < |keys| && Splits(a, b, c, multiset(keys[..n]))
    ensures Splits(a + [keys[n]], b, c, multiset(keys[..n + 1]))
  {
    SplitsGrow(a, b, c, keys, n);
  }

  lemma SplitsGrowThird(a: seq<string>, b: seq<string>, c: seq<string>, keys: seq<string>, n: nat)
    requires n < |keys| && Splits(a, b, c, multiset(keys[..n]))
    ensures Splits(a, b, c + [keys[n]], multiset(keys[..n + 1]))
  {
    SplitsGrow(a, b, c, keys, n);
  }

  lemma SplitsJoin(a: seq<string>, b: seq<string>, c: seq<string>, all: multiset<string>,
                   a': seq<string>, b': seq<string>, c': seq<string>, all': multiset<string>)
    requires Splits(a, b, c, all) && Splits(a', b', c', all')
    ensures Splits(a + a', b + b', c + c', all + all')
  {
  }

  /** The first loop over a group: drops keys the base never showed. */
  method SelectLoop(groupKeys: seq<string>, shown: string -> bool, headShown: string -> bool)
    returns (keys: seq<string>, headOnly: seq<string>, incomplete: seq<string>)
    ensures keys == Filter(groupKeys, shown)
    ensures headOnly == Filter(groupKeys, (key: string) => !shown(key) && headShown(key))
    ensures incomplete == Filter(groupKeys, (key: string) => !shown(key) && !headShown(key))
  {
    ghost var isNew := (key: string) => !shown(key) && headShown(key);
    ghost var never := (key: string) => !shown(key) && !headShown(key);
    keys, headOnly, incomplete := [], [], [];
    for n := 0 to |groupKeys|
      invariant keys == Filter(groupKeys[..n], shown)
      invariant headOnly == Filter(groupKeys[..n], isNew)
      invariant incomplete == Filter(groupKeys[..n], never)
    {
      var key := groupKeys[n];
      assert groupKeys[..n + 1] == groupKeys[..n] + [key];
      FilterAppend(groupKeys[..n], key, shown);
      FilterAppend(groupKeys[..n], key, isNew);
      FilterAppend(groupKeys[..n], key, never);
      if shown(key) { keys := keys + [key]; }
      else if headShown(key) { headOnly := headOnly + [key]; }
      else { incomplete := incomplete + [key]; }
    }
    assert groupKeys[..|groupKeys|] == groupKeys;
  }

  /** Three filters of which exactly one keeps each key split the keys. */
  lemma {:induction false} FiltersSplit(keys: seq<string>, f: string -> bool, g: string -> bool, h: string -> bool)
    requires forall key ::
               || (f(key) && !g(key) && !h(key))
               || (!f(key) && g(key) && !h(key))
               || (!f(key) && !g(key) && h(key))
    ensures Splits(Filter(keys, f), Filter(keys, g), Filter(keys, h), multiset(keys))
  {
    if keys != [] {
      FiltersSplit(keys[1..], f, g, h);
      assert keys == [keys[0]] + keys[1..];
    }
  }

  predicate AlwaysFinite(m: Maths, head: seq<Run>, key: string) {
    |Finite(Logs(m, head, key))| == |Logs(m, head, key)|
  }

  /** The keys of a group to judge; the others with the outcome they have. */
  method SelectMeasured(m: Maths, base: seq<Run>, head: seq<Run>, groupKeys: seq<string>)
    returns (keys: seq<string>, headOnly: seq<string>, incomplete: seq<string>)
    requires AllPaired(base, head, groupKeys)
    ensures Splits(keys, headOnly, incomplete, multiset(groupKeys))
    ensures keys == Measured(m, base, groupKeys)
    ensures forall key :: key in keys ==> key in groupKeys && HasFinite(m, base, key)
    ensures Lands(m, base, head, headOnly, IsHeadOnly) && Lands(m, base, head, incomplete, IsIncomplete)
  {
    var shown, headShown := (key: string) => HasFinite(m, base, key), (key: string) => AlwaysFinite(m, head, key);
    keys, headOnly, incomplete := SelectLoop(groupKeys, shown, headShown);
    ghost var isNew := (key: string) => !shown(key) && headShown(key);
    ghost var never := (key: string) => !shown(key) && !headShown(key);
    FiltersSplit(groupKeys, shown, isNew, never);
    forall key
      ensures key in keys ==> key in groupKeys && HasFinite(m, base, key)
      ensures key in headOnly ==> ClickOutcome(m, base, head, key) == IsHeadOnly
      ensures key in incomplete ==> ClickOutcome(m, base, head, key) == IsIncomplete
    {
      FilterMember(groupKeys, shown, key);
      FilterMember(groupKeys, isNew, key);
      FilterMember(groupKeys, never, key);
      if key in groupKeys && !HasFinite(m, base, key) { UnmeasuredOutcome(m, base, head, key); }
    }
  }

  lemma UnmeasuredOutcome(m: Maths, base: seq<Run>, head: seq<Run>, key: string)
    requires PairingOf(base, head, key) == Paired && !HasFinite(m, base, key)
    ensures ClickOutcome(m, base, head, key) == if AlwaysFinite(m, head, key) then IsHeadOnly else IsIncomplete
  {
  }

  lemma MeasuredOutcome(m: Maths, base: seq<Run>, head: seq<Run>, key: string)
    requires key in AllKeys(base) + AllKeys(head) && PairingOf(base, head, key) == Paired && HasFinite(m, base, key)
    ensures ClickOutcome(m, base, head, key) ==
            if Median(Logs(m, base, key)) == Some(Never) then IsIncomplete else IsJudged
    ensures Logs(m, base, key) != [] && Logs(m, head, key) != []
  {
    LogsCount(m, base, key);
    LogsCount(m, head, key);
  }

  lemma KeysAppended(judged: seq<Judged>, j: Judged)
    ensures KeysOf(judged + [j]) == KeysOf(judged) + [j.key]
  {
  }

  /** The judging loop over a group: a key whose base mostly never showed its
      content is incomplete, every other one gets its verdict. */
  method JudgeLoop(keys: seq<string>, mostlyLost: string -> bool, verdict: string --> Judged)
    returns (judged: seq<Judged>, incomplete: seq<string>)
    requires forall key :: key in keys && !mostlyLost(key) ==> verdict.requires(key) && verdict(key).key == key
    ensures Splits(KeysOf(judged), [], incomplete, multiset(keys))
    ensures forall key :: key in incomplete ==> key in keys && mostlyLost(key)
    ensures forall j :: j in judged ==>
            j.key in keys && !mostlyLost(j.key) && verdict.requires(j.key) && j == verdict(j.key)
  {
    judged, incomplete := [], [];
    for n := 0 to |keys|
      invariant Splits(KeysOf(judged), [], incomplete, multiset(keys[..n]))
      invariant forall key :: key in incomplete ==> key in keys && mostlyLost(key)
      invariant forall j :: j in judged ==>
                j.key in keys && !mostlyLost(j.key) && verdict.requires(j.key) && j == verdict(j.key)
    {
      var key := keys[n];
      assert key in keys;
      if mostlyLost(key) {
        SplitsGrowThird(KeysOf(judged), [], incomplete, keys, n);
        incomplete := incomplete + [key];
      } else {
        SplitsGrowFirst(KeysOf(judged), [], incomplete, keys, n);
        KeysAppended(judged, verdict(key));
        judged := judged + [verdict(key)];
      }
    }
    assert keys[..|keys|] == keys;
  }

  /** Judges the measured keys of a group with their pooled noise. */
  method JudgeMeasured(m: Maths, base: seq<Run>, head: seq<Run>, keys: seq<string>, k: real)
    returns (judged: seq<Judged>, incomplete: seq<string>)
    requires AllPaired(base, head, keys) && forall key :: key in keys ==> HasFinite(m, base, key)
    ensures Splits(KeysOf(judged), [], incomplete, multiset(keys))
    ensures forall j :: j in judged ==> j.key in keys && Fair(m, base, head, keys, k, j)
    ensures Lands(m, base, head, incomplete, IsIncomplete)
  {
    var sigma := PooledSpread(Samples(m, base, head, keys));
    forall key | key in keys
      ensures ClickOutcome(m, base, head, key) ==
              if Median(Logs(m, base, key)) == Some(Never) then IsIncomplete else IsJudged
      ensures Logs(m, base, key) != [] && Logs(m, head, key) != []
    {
      MeasuredOutcome(m, base, head, key);
    }
    judged, incomplete := JudgeLoop(
      keys,
      key => Median(Logs(m, base, key)) == Some(Never),
      key requires BaseShown(Logs(m, base, key)) && Logs(m, head, key) != [] =>
        JudgeClick(m, key, Logs(m, base, key), Logs(m, head, key), sigma, k));
  }

  /** One network and pass: every paired key is judged with the noise of its
      group, noted or incomplete, each exactly once. */
  method JudgeGroup(m: Maths, base: seq<Run>, head: seq<Run>, groupKeys: seq<string>, k: real)
    returns (judged: seq<Judged>, headOnly: seq<string>, incomplete: seq<string>)
    requires AllPaired(base, head, groupKeys)
    ensures Splits(KeysOf(judged), headOnly, incomplete, multiset(groupKeys))
    ensures forall j :: j in judged ==> j.key in groupKeys && Fair(m, base, head, Measured(m, base, groupKeys), k, j)
    ensures Lands(m, base, head, headOnly, IsHeadOnly) && Lands(m, base, head, incomplete, IsIncomplete)
  {
    var keys, never, mostly;
    keys, headOnly, never := SelectMeasured(m, base, head, groupKeys);
    judged, mostly := JudgeMeasured(m, base, head, keys, k);
    incomplete := never + mostly;
    assert multiset(incomplete) == multiset(never) + multiset(mostly);
    assert multiset(KeysOf(judged)) + multiset(mostly) == multiset(keys);
  }

  lemma {:induction false} FilterAppend<T>(s: seq<T>, x: T, keep: T -> bool)
    ensures Filter(s + [x], keep) == Filter(s, keep) + if keep(x) then [x] else []
  {
    if s == [] {
      assert s + [x] == [x] && [x][1..] == [];
    } else {
      assert (s + [x])[1..] == s[1..] + [x];
      FilterAppend(s[1..], x, keep);
    }
  }

  /** The paired keys of a network and pass. */
  function GroupKeys(paired: seq<string>, groupOf: string -> string, group: string): seq<string> {
    Filter(paired, (x: string) => groupOf(x) == group)
  }

  /** Each key of either side is in exactly the list its outcome calls for. */
  predicate Sorted3(
      m: Maths, base: seq<Run>, head: seq<Run>, judged: seq<Judged>, headOnly: seq<string>,
      incomplete: seq<string>) {
    forall key :: key in AllKeys(base) + AllKeys(head) ==>
      && (key in KeysOf(judged) <==> ClickOutcome(m, base, head, key) == IsJudged)
      && (key in headOnly <==> ClickOutcome(m, base, head, key) == IsHeadOnly)
      && (key in incomplete <==> ClickOutcome(m, base, head, key) == IsIncomplete)
  }

  /** The click part of `compare`: pairs the keys, groups them by network and
      pass (`groupOf`), and judges each group. Every key of either side ends in
      exactly one list, once, and in the list its runs call for. */
  method CompareClicks(m: Maths, base: seq<Run>, head: seq<Run>, groupOf: string -> string, k: real)
    returns (judged: seq<Judged>, headOnly: seq<string>, incomplete: seq<string>, paired: seq<string>)
    ensures Splits(KeysOf(judged), headOnly, incomplete, multiset(AllKeys(base) + AllKeys(head)))
    ensures Sorted3(m, base, head, judged, headOnly, incomplete)
    ensures multiset(paired) <= multiset(AllKeys(base) + AllKeys(head))
    ensures forall key :: key in paired <==>
            key in AllKeys(base) + AllKeys(head) && PairingOf(base, head, key) == Paired
    ensures forall j :: j in judged ==>
              Fair(m, base, head, Measured(m, base, GroupKeys(paired, groupOf, groupOf(j.key))), k, j)
  {
    var noted, unpaired;
    paired, noted, unpaired := PairKeys(base, head);
    PairedAreKeys(base, head, paired, noted, unpaired);
    judged, headOnly, incomplete := [], noted, unpaired;
    var groups := set i | 0 <= i < |paired| :: groupOf(paired[i]);
    ghost var done: set<string> := {};
    NoGroups(paired, groupOf);
    while groups != {}
      invariant groups !! done && forall key :: key in paired ==> groupOf(key) in groups + done
      invariant Splits(KeysOf(judged), headOnly, incomplete,
                InGroups(paired, groupOf, done) + multiset(noted) + multiset(unpaired))
      invariant forall j :: j in judged ==>
                  Fair(m, base, head, Measured(m, base, GroupKeys(paired, groupOf, groupOf(j.key))), k, j)
      invariant Lands(m, base, head, headOnly, IsHeadOnly) && Lands(m, base, head, incomplete, IsIncomplete)
    {
      var group :| group in groups;
      var groupKeys := GroupKeys(paired, groupOf, group);
      GroupKeysPaired(base, head, paired, groupOf, group);
      var j, h, i := JudgeGroup(m, base, head, groupKeys, k);
      assert forall x :: x in j ==> groupOf(x.key) == group;
      KeysConcat(judged, j);
      SplitsJoin(KeysOf(judged), headOnly, incomplete,
        InGroups(paired, groupOf, done) + multiset(noted) + multiset(unpaired),
                 KeysOf(j), h, i, multiset(groupKeys));
      FilterSplit(paired, groupOf, done, group);
      Regroup(InGroups(paired, groupOf, done), multiset(noted), multiset(unpaired), multiset(groupKeys));
      judged, headOnly, incomplete := judged + j, headOnly + h, incomplete + i;
      groups, done := groups - {group}, done + {group};
    }
    FilterAll(paired, (x: string) => groupOf(x) in done);
    assert InGroups(paired, groupOf, done) == multiset(paired);
    EachInItsList(m, base, head, judged, headOnly, incomplete);
  }

  lemma Regroup(a: multiset<string>, b: multiset<string>, c: multiset<string>, d: multiset<string>)
    ensures a + b + c + d == (a + d) + b + c
  {
  }

  lemma KeysConcat(a: seq<Judged>, b: seq<Judged>)
    ensures KeysOf(a + b) == KeysOf(a) + KeysOf(b)
  {
  }

  lemma GroupKeysPaired(base: seq<Run>, head: seq<Run>, paired: seq<string>, groupOf: string -> string, group: string)
    requires AllPaired(base, head, paired)
    ensures AllPaired(base, head, GroupKeys(paired, groupOf, group))
    ensures forall key :: key in GroupKeys(paired, groupOf, group) ==> groupOf(key) == group
  {
    forall key | key in GroupKeys(paired, groupOf, group) ensures key in paired && groupOf(key) == group {
      FilterMember(paired, (x: string) => groupOf(x) == group, key);
    }
  }

  lemma {:induction false} PairedAreKeys(
      base: seq<Run>, head: seq<Run>, keys: seq<string>, headOnly: seq<string>, incomplete: seq<string>)
    requires multiset(keys) + multiset(headOnly) + multiset(incomplete) == multiset(AllKeys(base) + AllKeys(head))
    requires forall key :: key in keys ==> PairingOf(base, head, key) == Paired
    requires forall key :: key in headOnly ==> PairingOf(base, head, key) == HeadOnly
    requires forall key :: key in incomplete ==> PairingOf(base, head, key) == Incomplete
    ensures forall key :: key in keys <==> key in AllKeys(base) + AllKeys(head) && PairingOf(base, head, key) == Paired
    ensures forall m :: Lands(m, base, head, headOnly, IsHeadOnly) && Lands(m, base, head, incomplete, IsIncomplete)
  {
    forall key
      ensures key in keys <==> key in AllKeys(base) + AllKeys(head) && PairingOf(base, head, key) == Paired
    {
      InOneOf(keys, headOnly, incomplete, AllKeys(base) + AllKeys(head), key);
    }
  }

  lemma InOneOf(a: seq<string>, b: seq<string>, c: seq<string>, all: set<string>, x: string)
    requires multiset(a) + multiset(b) + multiset(c) == multiset(all)
    ensures x in all <==> x in a || x in b || x in c
    ensures !(x in a && x in b) && !(x in a && x in c) && !(x in b && x in c)
  {
    assert multiset(a)[x] + multiset(b)[x] + multiset(c)[x] == multiset(all)[x];
    assert x in a <==> multiset(a)[x] > 0;
    assert x in b <==> multiset(b)[x] > 0;
    assert x in c <==> multiset(c)[x] > 0;
  }

  /** The paired keys of the groups in `done`. */
  function InGroups(keys: seq<string>, groupOf: string -> string, done: set<string>): multiset<string> {
    multiset(Filter(keys, (x: string) => groupOf(x) in done))
  }

  lemma {:induction false} NoGroups(keys: seq<string>, groupOf: string -> string)
    ensures InGroups(keys, groupOf, {}) == multiset{}
  {
    if keys != [] { NoGroups(keys[1..], groupOf); }
  }

  lemma {:induction false} FilterSplit(keys: seq<string>, groupOf: string -> string, done: set<string>, group: string)
    requires group !in done
    ensures InGroups(keys, groupOf, done + {group}) ==
            InGroups(keys, groupOf, done) + multiset(GroupKeys(keys, groupOf, group))
  {
    if keys != [] { FilterSplit(keys[1..], groupOf, done, group); }
  }

  lemma {:induction false} FilterAll<T>(s: seq<T>, keep: T -> bool)
    requires forall x :: x in s ==> keep(x)
    ensures Filter(s, keep) == s
  {
    if s != [] { FilterAll(s[1..], keep); }
  }

  lemma {:induction false} EachInItsList(
      m: Maths, base: seq<Run>, head: seq<Run>, judged: seq<Judged>, headOnly: seq<string>,
      incomplete: seq<string>)
    requires Splits(KeysOf(judged), headOnly, incomplete, multiset(AllKeys(base) + AllKeys(head)))
    requires forall j :: j in judged ==> ClickOutcome(m, base, head, j.key) == IsJudged
    requires Lands(m, base, head, headOnly, IsHeadOnly) && Lands(m, base, head, incomplete, IsIncomplete)
    ensures Sorted3(m, base, head, judged, headOnly, incomplete)
  {
    assert Lands(m, base, head, KeysOf(judged), IsJudged) by {
      forall key | key in KeysOf(judged) ensures ClickOutcome(m, base, head, key) == IsJudged {
        var i :| 0 <= i < |judged| && judged[i].key == key;
        assert judged[i] in judged;
      }
    }
    forall key | key in AllKeys(base) + AllKeys(head)
      ensures key in KeysOf(judged) || key in headOnly || key in incomplete
    {
      InOneOf(KeysOf(judged), headOnly, incomplete, AllKeys(base) + AllKeys(head), key);
    }
  }

  // ── The order of result files does not matter ─────────────────────────

  lemma {:induction false} LogsMiddle(m: Maths, a: seq<Run>, run: Run, b: seq<Run>, key: string)
    ensures multiset(Logs(m, a + [run] + b, key)) ==
            (if key in run then multiset{LogOf(m, run[key])} else multiset{}) + multiset(Logs(m, a + b, key))
  {
    if a == [] {
      assert a + [run] + b == [run] + b && a + b == b && ([run] + b)[1..] == b;
    } else {
      assert (a + [run] + b)[1..] == a[1..] + [run] + b && (a + b)[1..] == a[1..] + b;
      LogsMiddle(m, a[1..], run, b, key);
    }
  }

  lemma {:induction false} LogsPermute(m: Maths, s: seq<Run>, t: seq<Run>, key: string)
    requires multiset(s) == multiset(t)
    ensures multiset(Logs(m, s, key)) == multiset(Logs(m, t, key))
  {
    assert |s| == |multiset(s)| == |multiset(t)| == |t|;
    if s != [] {
      var a, b := AroundHead(s, t);
      LogsPermute(m, s[1..], a + b, key);
      LogsMiddle(m, a, s[0], b, key);
    }
  }

  lemma {:induction false} FinitePermute(s: seq<Value>, t: seq<Value>)
    requires multiset(s) == multiset(t)
    ensures multiset(Finite(s)) == multiset(Finite(t))
  {
    assert |s| == |multiset(s)| == |multiset(t)| == |t|;
    if s != [] {
      var a, b := AroundHead(s, t);
      FinitePermute(s[1..], a + b);
      FiniteMiddle(a, s[0], b);
    }
  }

  lemma {:induction false} FiniteMiddle(a: seq<Value>, v: Value, b: seq<Value>)
    ensures multiset(Finite(a + [v] + b)) == (if v.Fin? then multiset{v.r} else multiset{}) + multiset(Finite(a + b))
  {
    if a == [] {
      assert a + [v] + b == [v] + b && a + b == b && ([v] + b)[1..] == b;
    } else {
      assert (a + [v] + b)[1..] == a[1..] + [v] + b && (a + b)[1..] == a[1..] + b;
      FiniteMiddle(a[1..], v, b);
    }
  }

  /** The noise samples of a list of keys, as bags. */
  lemma {:induction false} SamplesPermuteRuns(
      m: Maths, base: seq<Run>, head: seq<Run>, base': seq<Run>, head': seq<Run>, keys: seq<string>)
    requires multiset(base) == multiset(base') && multiset(head) == multiset(head')
    ensures Bags(Samples(m, base, head, keys)) == Bags(Samples(m, base', head', keys))
  {
    if keys != [] {
      LogsPermute(m, base, base', keys[0]);
      LogsPermute(m, head, head', keys[0]);
      FinitePermute(Logs(m, base, keys[0]), Logs(m, base', keys[0]));
      FinitePermute(Logs(m, head, keys[0]), Logs(m, head', keys[0]));
      SamplesPermuteRuns(m, base, head, base', head', keys[1..]);
      assert keys == [keys[0]] + keys[1..];
      BagsHead(m, base, head, keys[0], keys[1..]);
      BagsHead(m, base', head', keys[0], keys[1..]);
    }
  }

  lemma {:induction false} SamplesMiddle(
      m: Maths, base: seq<Run>, head: seq<Run>, a: seq<string>, key: string, b: seq<string>)
    ensures multiset(Bags(Samples(m, base, head, a + [key] + b))) ==
            multiset(Bags(Samples(m, base, head, [key]))) + multiset(Bags(Samples(m, base, head, a + b)))
  {
    if a == [] {
      assert a + [key] + b == [key] + b && a + b == b && ([key] + b)[1..] == b && [key][1..] == [];
      BagsHead(m, base, head, key, b);
      BagsHead(m, base, head, key, []);
    } else {
      assert (a + [key] + b)[1..] == a[1..] + [key] + b && (a + b)[1..] == a[1..] + b;
      assert a + [key] + b == [a[0]] + (a[1..] + [key] + b) && a + b == [a[0]] + (a[1..] + b);
      SamplesMiddle(m, base, head, a[1..], key, b);
      BagsHead(m, base, head, a[0], a[1..] + [key] + b);
      BagsHead(m, base, head, a[0], a[1..] + b);
    }
  }

  lemma {:induction false} BagsHead(m: Maths, base: seq<Run>, head: seq<Run>, key: string, keys: seq<string>)
    ensures Bags(Samples(m, base, head, [key] + keys)) ==
            [multiset(Finite(Logs(m, base, key))), multiset(Finite(Logs(m, head, key)))] +
              Bags(Samples(m, base, head, keys))
  {
    var b, h := Finite(Logs(m, base, key)), Finite(Logs(m, head, key));
    assert ([key] + keys)[1..] == keys;
    assert Samples(m, base, head, [key] + keys) == [b, h] + Samples(m, base, head, keys);
    BagsConcat(b, h, Samples(m, base, head, keys));
  }

  lemma BagsConcat(b: seq<real>, h: seq<real>, rest: seq<seq<real>>)
    ensures Bags([b, h] + rest) == [multiset(b), multiset(h)] + Bags(rest)
  {
  }

  lemma {:induction false} SamplesPermuteKeys(
      m: Maths, base: seq<Run>, head: seq<Run>, keys: seq<string>, keys': seq<string>)
    requires multiset(keys) == multiset(keys')
    ensures multiset(Bags(Samples(m, base, head, keys))) == multiset(Bags(Samples(m, base, head, keys')))
  {
    assert |keys| == |multiset(keys)| == |multiset(keys')| == |keys'|;
    if keys != [] {
      var a, b := AroundHead(keys, keys');
      SamplesPermuteKeys(m, base, head, keys[1..], a + b);
      SamplesMiddle(m, base, head, a, keys[0], b);
      SamplesMiddle(m, base, head, [], keys[0], keys[1..]);
      assert [] + [keys[0]] + keys[1..] == keys && [] + keys[1..] == keys[1..];
    }
  }

  /** A journey's judgement does not depend on the order in which the runs of
      either side are read, nor on the order in which its group's keys turn up. */
  lemma {:induction false} JudgementIgnoresOrder(
      m: Maths, base: seq<Run>, head: seq<Run>, keys: seq<string>,
      base': seq<Run>, head': seq<Run>, keys': seq<string>, key: string, k: real)
    requires multiset(base) == multiset(base') && multiset(head) == multiset(head') && multiset(keys) == multiset(keys')
    requires BaseShown(Logs(m, base, key)) && Logs(m, head, key) != []
    ensures BaseShown(Logs(m, base', key)) && Logs(m, head', key) != []
    ensures JudgeKey(m, base, head, keys, key, k) == JudgeKey(m, base', head', keys', key, k)
  {
    SamplesPermuteRuns(m, base, head, base', head', keys);
    SamplesPermuteKeys(m, base', head', keys, keys');
    SpreadPermutes(Samples(m, base, head, keys), Samples(m, base', head', keys'));
    SamePermutation(m, base, base', key);
    SamePermutation(m, head, head', key);
  }

  lemma SamePermutation(m: Maths, runs: seq<Run>, runs': seq<Run>, key: string)
    requires multiset(runs) == multiset(runs')
    ensures var s, t := Logs(m, runs, key), Logs(m, runs', key);
            |s| == |t| && Median(s) == Median(t) && |Finite(s)| == |Finite(t)| &&
              Median(Wrap(Finite(s))) == Median(Wrap(Finite(t)))
  {
    var s, t := Logs(m, runs, key), Logs(m, runs', key);
    LogsPermute(m, runs, runs', key);
    FinitePermute(s, t);
    WrapPermute(Finite(s), Finite(t));
    MedianPermutes(s, t);
    MedianPermutes(Wrap(Finite(s)), Wrap(Finite(t)));
    assert |s| == |multiset(s)| == |multiset(t)| == |t|;
    assert |Finite(s)| == |multiset(Finite(s))| == |multiset(Finite(t))| == |Finite(t)|;
  }

  /** Nor does its outcome. */
  lemma OutcomeIgnoresOrder(m: Maths, base: seq<Run>, head: seq<Run>, base': seq<Run>, head': seq<Run>, key: string)
    requires multiset(base) == multiset(base') && multiset(head) == multiset(head')
    ensures ClickOutcome(m, base, head, key) == ClickOutcome(m, base', head', key)
  {
    SamePermutation(m, base, base', key);
    SamePermutation(m, head, head', key);
    LogsCount(m, base, key);
    LogsCount(m, head, key);
    LogsCount(m, base', key);
    LogsCount(m, head', key);
    assert |head| == |multiset(head)| == |multiset(head')| == |head'|;
  }
}
