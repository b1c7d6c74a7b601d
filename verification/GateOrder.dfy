/** The click comparison as a whole: from the clicks of the result files, and in
    whatever order these are read (`compare` in scripts/perf/gate.ts). */
module GateOrder {
  import opened Sorting
  import opened Gate
  import opened GateCompare

  /** What `CompareClicks` gives for the runs of both sides. */
  ghost predicate IsComparison(
      m: Maths, base: seq<Run>, head: seq<Run>, groupOf: string -> string, k: real,
      judged: seq<Judged>, headOnly: seq<string>, incomplete: seq<string>,
      paired: seq<string>) {
    && Splits(KeysOf(judged), headOnly, incomplete, multiset(AllKeys(base) + AllKeys(head)))
    && Sorted3(m, base, head, judged, headOnly, incomplete)
    && multiset(paired) <= multiset(AllKeys(base) + AllKeys(head))
    && (forall key :: key in paired <==> key in AllKeys(base) + AllKeys(head) && PairingOf(base, head, key) == Paired)
    && (forall j :: j in judged ==>
          Fair(m, base, head, Measured(m, base, GroupKeys(paired, groupOf, groupOf(j.key))), k, j))
  }

  /** The click part of `compare` on the clicks of the result files: every key
      with a timed click on either side ends in exactly one list, once. */
  method CompareResults(
      m: Maths, baseResults: seq<seq<Click>>, headResults: seq<seq<Click>>, groupOf: string -> string, k: real)
    returns (judged: seq<Judged>, headOnly: seq<string>, incomplete: seq<string>,
             ghost base: seq<Run>, ghost head: seq<Run>, ghost paired: seq<string>)
    ensures Splits(KeysOf(judged), headOnly, incomplete, multiset(TimedKeys(baseResults) + TimedKeys(headResults)))
    ensures exists order :: AreRuns(baseResults, base, order)
    ensures exists order :: AreRuns(headResults, head, order)
    ensures IsComparison(m, base, head, groupOf, k, judged, headOnly, incomplete, paired)
  {
    var baseRuns := ClickRuns(baseResults);
    var headRuns := ClickRuns(headResults);
    base, head := baseRuns, headRuns;
    judged, headOnly, incomplete, paired := CompareClicks(m, baseRuns, headRuns, groupOf, k);
  }

  // ── Order does not matter ─────────────────────────────────────────────

  lemma {:induction false} CountPermutes(m: Maths, s: seq<Run>, t: seq<Run>, key: string)
    requires multiset(s) == multiset(t)
    ensures Count(s, key) == Count(t, key) && |s| == |t|
  {
    LogsPermute(m, s, t, key);
    LogsCount(m, s, key);
    LogsCount(m, t, key);
    assert |Logs(m, s, key)| == |multiset(Logs(m, s, key))| == |multiset(Logs(m, t, key))| == |Logs(m, t, key)|;
    assert |s| == |multiset(s)| == |multiset(t)| == |t|;
  }

  lemma {:induction false} KeysPermute(m: Maths, s: seq<Run>, t: seq<Run>)
    requires multiset(s) == multiset(t)
    ensures AllKeys(s) == AllKeys(t)
  {
    forall key ensures key in AllKeys(s) <==> key in AllKeys(t) {
      CountPermutes(m, s, t, key);
      CountKeys(s, key);
      CountKeys(t, key);
    }
  }

  /** Lists with the same members and none twice are alike. */
  lemma SameOnce<T>(s: seq<T>, t: seq<T>, all: multiset<T>)
    requires multiset(s) <= all && multiset(t) <= all && forall x :: all[x] <= 1
    requires forall x :: x in s <==> x in t
    ensures multiset(s) == multiset(t)
  {
    forall x ensures multiset(s)[x] == multiset(t)[x] {
      assert multiset(s)[x] <= all[x] <= 1 && multiset(t)[x] <= all[x];
      assert x in s <==> multiset(s)[x] > 0;
      assert x in t <==> multiset(t)[x] > 0;
    }
  }

  lemma SetOnce(all: set<string>)
    ensures forall x :: multiset(all)[x] <= 1
  {
  }

  lemma {:induction false} PairedPermute(
      m: Maths, base: seq<Run>, head: seq<Run>, base': seq<Run>, head': seq<Run>, paired: seq<string>,
        paired': seq<string>)
    requires multiset(base) == multiset(base') && multiset(head) == multiset(head')
    requires multiset(paired) <= multiset(AllKeys(base) + AllKeys(head))
    requires multiset(paired') <= multiset(AllKeys(base') + AllKeys(head'))
    requires forall key :: key in paired <==>
             key in AllKeys(base) + AllKeys(head) && PairingOf(base, head, key) == Paired
    requires forall key :: key in paired' <==>
             key in AllKeys(base') + AllKeys(head') && PairingOf(base', head', key) == Paired
    ensures multiset(paired) == multiset(paired')
  {
    KeysPermute(m, base, base');
    KeysPermute(m, head, head');
    forall key ensures PairingOf(base, head, key) == PairingOf(base', head', key) {
      CountPermutes(m, base, base', key);
      CountPermutes(m, head, head', key);
    }
    SetOnce(AllKeys(base) + AllKeys(head));
    SameOnce(paired, paired', multiset(AllKeys(base) + AllKeys(head)));
  }

  lemma {:induction false} FiltersPermute(s: seq<string>, t: seq<string>, f: string -> bool, g: string -> bool)
    requires multiset(s) == multiset(t) && forall x :: f(x) == g(x)
    ensures multiset(Filter(s, f)) == multiset(Filter(t, g))
  {
    forall x ensures multiset(Filter(s, f))[x] == multiset(Filter(t, g))[x] {
      FilterCounts(s, f, x);
      FilterCounts(t, g, x);
    }
  }

  lemma {:induction false} MeasuredPermute(
      m: Maths, base: seq<Run>, base': seq<Run>, paired: seq<string>, paired': seq<string>,
        groupOf: string -> string, group: string)
    requires multiset(base) == multiset(base') && multiset(paired) == multiset(paired')
    ensures multiset(Measured(m, base, GroupKeys(paired, groupOf, group))) ==
            multiset(Measured(m, base', GroupKeys(paired', groupOf, group)))
  {
    var inGroup := (x: string) => groupOf(x) == group;
    FiltersPermute(paired, paired', (x: string) => groupOf(x) == group, (x: string) => groupOf(x) == group);
    forall key ensures HasFinite(m, base, key) == HasFinite(m, base', key) { SamePermutation(m, base, base', key); }
    FiltersPermute(GroupKeys(paired, groupOf, group), GroupKeys(paired', groupOf, group),
                   (key: string) => HasFinite(m, base, key), (key: string) => HasFinite(m, base', key));
  }

  /** Every verdict of one comparison is one of the other. */
  lemma {:induction false} VerdictsCarryOver(
      m: Maths, base: seq<Run>, head: seq<Run>, base': seq<Run>, head': seq<Run>, groupOf: string -> string, k: real,
      judged: seq<Judged>, headOnly: seq<string>, incomplete: seq<string>, paired: seq<string>,
      judged': seq<Judged>, headOnly': seq<string>, incomplete': seq<string>, paired': seq<string>, j: Judged)
    requires multiset(base) == multiset(base') && multiset(head) == multiset(head')
    requires IsComparison(m, base, head, groupOf, k, judged, headOnly, incomplete, paired)
    requires IsComparison(m, base', head', groupOf, k, judged', headOnly', incomplete', paired')
    requires j in judged
    ensures j in judged'
  {
    var i :| 0 <= i < |judged| && judged[i] == j;
    assert KeysOf(judged)[i] == j.key;
    InOneOf(KeysOf(judged), headOnly, incomplete, AllKeys(base) + AllKeys(head), j.key);
    KeysPermute(m, base, base');
    KeysPermute(m, head, head');
    OutcomeIgnoresOrder(m, base, head, base', head', j.key);
    assert j.key in KeysOf(judged');
    var n :| 0 <= n < |judged'| && KeysOf(judged')[n] == j.key;
    var other := judged'[n];
    assert other in judged' && other.key == j.key;
    PairedPermute(m, base, head, base', head', paired, paired');
    MeasuredPermute(m, base, base', paired, paired', groupOf, groupOf(j.key));
    JudgementIgnoresOrder(m, base, head, Measured(m, base, GroupKeys(paired, groupOf, groupOf(j.key))),
                          base', head', Measured(m, base', GroupKeys(paired', groupOf, groupOf(j.key))), j.key, k);
  }

  lemma {:induction false} JudgedOnce(judged: seq<Judged>, all: multiset<string>, j: Judged)
    requires multiset(KeysOf(judged)) <= all && all[j.key] <= 1
    ensures multiset(judged)[j] <= 1
  {
    JudgedCount(judged, j);
  }

  lemma {:induction false} JudgedCount(judged: seq<Judged>, j: Judged)
    ensures multiset(judged)[j] <= multiset(KeysOf(judged))[j.key]
  {
    if judged != [] {
      JudgedCount(judged[1..], j);
      assert judged == [judged[0]] + judged[1..];
      assert KeysOf(judged) == [judged[0].key] + KeysOf(judged[1..]);
    }
  }

  /** The whole comparison gives the same verdicts and the same lists, in whatever
      order the runs of either side are read. */
  lemma {:induction false} ComparisonIgnoresOrder(
      m: Maths, base: seq<Run>, head: seq<Run>, base': seq<Run>, head': seq<Run>, groupOf: string -> string, k: real,
      judged: seq<Judged>, headOnly: seq<string>, incomplete: seq<string>, paired: seq<string>,
      judged': seq<Judged>, headOnly': seq<string>, incomplete': seq<string>, paired': seq<string>)
    requires multiset(base) == multiset(base') && multiset(head) == multiset(head')
    requires IsComparison(m, base, head, groupOf, k, judged, headOnly, incomplete, paired)
    requires IsComparison(m, base', head', groupOf, k, judged', headOnly', incomplete', paired')
    ensures multiset(judged) == multiset(judged')
    ensures multiset(headOnly) == multiset(headOnly') && multiset(incomplete) == multiset(incomplete')
  {
    var all := multiset(AllKeys(base) + AllKeys(head));
    KeysPermute(m, base, base');
    KeysPermute(m, head, head');
    SetOnce(AllKeys(base) + AllKeys(head));
    forall j ensures multiset(judged)[j] == multiset(judged')[j] {
      JudgedOnce(judged, all, j);
      JudgedOnce(judged', all, j);
      if j in judged {
        VerdictsCarryOver(m, base, head, base', head', groupOf, k, judged, headOnly, incomplete, paired,
                          judged', headOnly', incomplete', paired', j);
      }
      if j in judged' {
        VerdictsCarryOver(m, base', head', base, head, groupOf, k, judged', headOnly', incomplete', paired',
                          judged, headOnly, incomplete, paired, j);
      }
      assert j in judged <==> multiset(judged)[j] > 0;
      assert j in judged' <==> multiset(judged')[j] > 0;
    }
    ListsCarryOver(m, base, head, base', head', judged, headOnly, incomplete, judged', headOnly', incomplete');
  }

  lemma {:induction false} ListsCarryOver(
      m: Maths, base: seq<Run>, head: seq<Run>, base': seq<Run>, head': seq<Run>,
      judged: seq<Judged>, headOnly: seq<string>, incomplete: seq<string>,
      judged': seq<Judged>, headOnly': seq<string>, incomplete': seq<string>)
    requires multiset(base) == multiset(base') && multiset(head) == multiset(head')
    requires Splits(KeysOf(judged), headOnly, incomplete, multiset(AllKeys(base) + AllKeys(head)))
    requires Splits(KeysOf(judged'), headOnly', incomplete', multiset(AllKeys(base') + AllKeys(head')))
    requires Sorted3(m, base, head, judged, headOnly, incomplete) &&
             Sorted3(m, base', head', judged', headOnly', incomplete')
    ensures multiset(headOnly) == multiset(headOnly') && multiset(incomplete) == multiset(incomplete')
  {
    var all := AllKeys(base) + AllKeys(head);
    KeysPermute(m, base, base');
    KeysPermute(m, head, head');
    SetOnce(all);
    forall x ensures (x in headOnly <==> x in headOnly') && (x in incomplete <==> x in incomplete') {
      InOneOf(KeysOf(judged), headOnly, incomplete, all, x);
      InOneOf(KeysOf(judged'), headOnly', incomplete', all, x);
      OutcomeIgnoresOrder(m, base, head, base', head', x);
    }
    SameOnce(headOnly, headOnly', multiset(all));
    SameOnce(incomplete, incomplete', multiset(all));
  }
}
